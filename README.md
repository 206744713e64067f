# halley, modelled in Dafny

halley is an event-driven HTTP/Comet server written in C++. This project models the deterministic, sequential core that sits around its socket, epoll and thread machinery, and proves properties of that model. Every `.dfy` file is one module. The module follows one source component:

- **Text codecs** (`UrlUtils`, `urlutils.dfy`):
  - percent-decoding, per section 2.1 of RFC 3986;
  - base64 encode and decode, per section 4 of RFC 4648;
  - reading a line off a stream;
  - the incremental query-string reader.
- **JSON stack**:
  - `JsonTokenizer` (`tokenizer.dfy`) is the lenient tokenizer. It is a class with one character of push-back and a look-ahead token.
  - `JsonReader` (`jsonreader.dfy`) is the recursive-descent tree builder.
  - `Json` (`json.dfy`) holds the document nodes, the typed accessors, the list and object containers and the text formatter.
  - `Amf` (`amf.dfy`) is the AMF 3 serialiser: section 1.3.1 (U29 integers) and section 3 of the AMF 3 specification.
  - `SortedMap` (`sortedmap.dfy`) is the std::map view that the object node and the header table use.
- **HTTP message layer**:
  - `Headers` is the header table with its lock and `Connection: close` detection.
  - `Message`, `Request` and `Response` hold the message, the request line and target splitting, and the status line.
  - `BodyParts` holds the body-part buffers.
  - `ReaderStage` is the incremental request reader. It is a class run on byte buffers and proved equal to a function `Process` of the buffer.
- **Output pipeline**:
  - `HttpModule` is the ordered release queue and the `nextBP`/`nextBPToSend` counters.
  - `ContentModule` is the multipart boundary stack and Content-Length, per section 5.1.1 of RFC 2046.
  - `TransferModule` is chunked framing, per section 4.1 of RFC 7230.
  - `Replies` is the shape of a module's answer.
- **Routing and lookup**:
  - `UrlRouter` holds the URL matchers and the first-match router.
  - `FileModule` covers doc-root resolution, directory listings and status decisions.
  - `DirUtils` is the name filter and the error texts.
  - `MimeTypes` maps file extensions to MIME types.
  - `Bayeux` is the Bayeux channel dispatch.
- **Small containers**:
  - `MemBuffer` is the growable buffer.
  - `RefCounting` covers reference counts and smart pointers.
  - `Jobs` holds per-stage job data.
  - `Listeners` is the listener list.
  - `Server` is the server's stage registry and connection bookkeeping.
- **Shared text vocabulary** (`CText`, `common.dfy`):
  - C strings;
  - character classes;
  - `atoi`;
  - decimal and hexadecimal text;
  - byte-wise string order.

Objects whose fields the source updates in place are Dafny classes. Their methods have `modifies` clauses and state their new state. Each method is proved against a specification function, and the properties the source promises are proved about that function as lemmas. Pure logic is written as functions and lemmas. A `std::string` is a Dafny `string` whose characters each stand for one byte. A C `char` is signed. A pointer that may be NULL is an `Option`.

Where the code does something its authors evidently did not intend, the model keeps two members side by side. One models the code as written and is shown failing on a concrete input. The other is the corrected definition, which the rest of the model uses. These pairs are listed under "## Findings".

## Model

| member | source | states |
|---|---|---|
| CText.StrnEqualIsPrefix | src/eds/http/filemodule.cpp:152 | strncmp(a, b, strlen(a)) == 0 exactly when the C string b starts with a |
| CText.StrnEqualSymmetric | trunk/src/eds/http/message.cpp:152 | strncmp's equality does not depend on the order of its operands |
| CText.IndexOfSpec | src/utils/urlutils.cpp:78 | strchr finds c exactly when c occurs, and then at its first occurrence |
| CText.StrLessTransitive | trunk/src/json/json.cpp:104-135 | the std::string order used for std::map keys is transitive (with StrLessIrreflexive, StrLessTotal: a strict total order) |
| CText.WrapInt32 | trunk/src/eds/http/message.cpp:143 | the long-to-int conversion keeps the low 32 bits: the result is in the int range and congruent to the input |
| CText.AtoiOfDecimal | trunk/src/eds/http/message.cpp:143 | atoi reads back every int that "%d" prints |
| CText.StrtolOfNegative | trunk/src/json/json.cpp:1301 | strtol reads a '-' followed by the digits of a negative number |
| UrlUtils.HexToDec | src/utils/urlutils.cpp:58-67 | the result lies in -1..15 and is non-negative exactly for hexadecimal digits of either case |
| UrlUtils.HexToDecOfDigit | src/utils/urlutils.cpp:58-67 | hex2dec gives back x from the upper- and the lower-case digit of x |
| UrlUtils.Escape | src/utils/urlutils.cpp:53-56 | Escape returns its argument unchanged |
| UrlUtils.Unescape | src/utils/urlutils.cpp:69-105 | the strchr loop computes the percent-decoding of the text up to its first NUL |
| UrlUtils.UnescapeBuffer | src/utils/urlutils.cpp:74-104 | the loop over the buffer yields the decoding from position 0 of its C string |
| UrlUtils.CopyThroughPercent | src/utils/urlutils.cpp:78-100 | one pass copies the text before the '%' that strchr finds and then takes the '%' step |
| UrlUtils.DecodeAtPercent | src/utils/urlutils.cpp:88-100 | at a '%', two hex digits give the character 16*h1+h2 and three places; otherwise the '%' and one place |
| UrlUtils.DecodeWithoutPercent | src/utils/urlutils.cpp:79-83 | when strchr finds no '%', the rest is copied unchanged |
| UrlUtils.UnescapeWithoutPercent | src/utils/urlutils.cpp:69-105 | a string without '%' and NUL comes back unchanged |
| UrlUtils.DecodeNotLonger | src/utils/urlutils.cpp:69-105 | decoding never lengthens the text |
| UrlUtils.DecodeFromSuffix | src/utils/urlutils.cpp:74-104 | decoding from position p depends only on the text from p on |
| UrlUtils.DecodePercentEncoded | src/utils/urlutils.cpp:88-95 | decoding inverts percent-encoding of every byte with upper-case hex digits |
| UrlUtils.LineEnd | src/utils/urlutils.cpp:108-119 | the index of the first CR or LF, or the length when there is none |
| UrlUtils.ReadTillCrLf | src/utils/urlutils.cpp:108-119 | the stream loop returns the documented line/rest pair; the line holds no CR or LF and is a prefix of the input |
| UrlUtils.ReadTillCrLfSwallowsAfterLf | src/utils/urlutils.cpp:114-118 | on "a\nbc" the line is "a" and the rest "c": the extra get after a bare LF loses a character |
| UrlUtils.ReadLineCorrected | src/utils/urlutils.cpp:108-119 | the line plus one of "", CR, LF, CRLF plus the rest is the input, and the line holds no CR or LF |
| UrlUtils.ReadLineCorrectedKeepsNextLine | src/utils/urlutils.cpp:108-119 | the corrected reading of "a\nbc" keeps "bc" |
| UrlUtils.ReadTillCrLfAgreesOnCrLf | src/utils/urlutils.cpp:108-119 | on a CRLF-terminated line both readings give the line and the rest |
| UrlUtils.AlphabetCharSpec | src/utils/urlutils.cpp:33-36 | the 64 alphabet characters are accepted by is_base64 and pairwise distinct |
| UrlUtils.Base64IndexOfChar | src/utils/urlutils.cpp:33-36 | find on base64_chars inverts indexing for all 64 values |
| UrlUtils.Base64CharOfIndex | src/utils/urlutils.cpp:122-124 | is_base64 characters index back to themselves; any other character finds npos, 255 as unsigned char |
| UrlUtils.Base64EncodeBytes | src/utils/urlutils.cpp:126-167 | base64_encode computes the full groups followed by the padded final group |
| UrlUtils.EncodeFullGroups | src/utils/urlutils.cpp:133-145 | the encoding loop emits the groups of the first 3*(n/3) bytes and keeps the rest |
| UrlUtils.EncodeQuadAlphabet | src/utils/urlutils.cpp:138-142 | a 3-byte group encodes to four alphabet characters |
| UrlUtils.Base64EncodeShape | src/utils/urlutils.cpp:126-167 | n bytes encode to 4*ceil(n/3) characters: alphabet characters and then (3 - n mod 3) mod 3 '=' |
| UrlUtils.Base64DecodeString | src/utils/urlutils.cpp:169-208 | base64_decode computes the groups of the longest alphabet prefix and its short final group |
| UrlUtils.DecodeFullGroups | src/utils/urlutils.cpp:177-190 | the decoding loop decodes the full groups of that prefix and keeps the unfinished group |
| UrlUtils.Base64PrefixSpec | src/utils/urlutils.cpp:177 | the loop stops at the first '=' or other non-alphabet character |
| UrlUtils.QuadValues | src/utils/urlutils.cpp:183-186 | the three bit joins of the decoder give back the three bytes of an encoded group |
| UrlUtils.DecodeTailOne | src/utils/urlutils.cpp:147-163 | a final group of one byte is two characters and "==" and decodes back to the byte |
| UrlUtils.DecodeTailTwo | src/utils/urlutils.cpp:147-163 | a final group of two bytes is three characters and "=" and decodes back to the bytes |
| UrlUtils.Base64RoundTrip | src/utils/urlutils.cpp:126-208 | base64_decode(base64_encode(b)) == b for every byte string |
| UrlUtils.Base64DecodeStopsAtNonAlphabet | src/utils/urlutils.cpp:177 | decoding ignores everything from the first non-alphabet character on |
| UrlUtils.SkipSpaceAndAmp | src/utils/urlutils.cpp:222-223 | the first index at or after p that is neither white space nor '&' |
| UrlUtils.SkipSeparators | src/utils/urlutils.cpp:222-223 | the skipping loop stops at that index |
| UrlUtils.UnescapeSlice | src/utils/urlutils.cpp:232-235 | the name or value copied out of the text is its percent-decoding |
| UrlUtils.ExtractNextQuery | src/utils/urlutils.cpp:217-239 | NULL pointer: false with the outputs untouched; otherwise the result, the name, the value and the pointer follow the query step, and a failure leaves name and value untouched |
| UrlUtils.ExtractPair | src/utils/urlutils.cpp:228-237 | the name runs to the '=', the value to the next '&' or the end, and the pointer is left at that '&' |
| UrlUtils.NextQueryAtEnd | src/utils/urlutils.cpp:222-226 | a rest of only white space and '&' holds no query and leaves the pointer at the end |
| UrlUtils.NextQueryWithoutEquals | src/utils/urlutils.cpp:228-230 | without a '=' after the separators there is no query and the pointer stays there |
| UrlUtils.NextQueryOfPair | src/utils/urlutils.cpp:217-239 | "name=value&rest" after separators yields the decoded name and value and a pointer at the '&' |
| UrlUtils.NextQueryOfLastPair | src/utils/urlutils.cpp:217-239 | the last pair yields the decoded name and value and a NULL pointer |
| SortedMap.Keys | trunk/src/json/json.cpp:721-739 | the keys are exactly the first components of the entries |
| SortedMap.Lookup | trunk/src/json/json.cpp:750-758 | find yields a value exactly for a present key, and then the value stored with it |
| SortedMap.Insert | trunk/src/json/json.cpp:721-739 | the entries stay ordered; the key set gains the name; the name maps to the new child; every other key keeps its value |
| SortedMap.Remove | src/eds/http/headers.cpp:213-226 | erase keeps the order, drops exactly the name and leaves every other key's value |
| SortedMap.RemoveAbsent | src/eds/http/headers.cpp:216-225 | erasing an absent key changes nothing |
| Headers.ParseLine | src/eds/http/headers.cpp:89-117 | a successful parse yields a NUL-free value; None exactly where ParseHeaderLine returns false |
| Headers.BlankLineRejected | src/eds/http/headers.cpp:96-97 | a line of nothing but white space is not a header |
| Headers.ParseLineOfHeader | src/eds/http/headers.cpp:89-117 | white space, a name, ':', white space and a value parse back as that name and value |
| Headers.WrittenLineParses | src/eds/http/headers.cpp:43-57 | a line as WriteToStream writes it parses back as the same header (for a value not starting with white space) |
| Headers.NameNotFollowedByColon | src/eds/http/headers.cpp:99-103 | a name followed by anything but ':' is rejected |
| Headers.SpaceBeforeColonRejected | src/eds/http/headers.cpp:99-103 | "Host : x" is rejected, since white space is a separator |
| Headers.ScanName | src/eds/http/headers.cpp:99-100 | the scan stops at the first control or separator character |
| Headers.ScanHeaderLine | src/eds/http/headers.cpp:89-112 | the pointer scan computes exactly ParseLine |
| Headers.SetEntry | src/eds/http/headers.cpp:147-169 | the intended SetHeader: the table stays ordered, the name holds the value (or old value ',' new value with append), every other header unchanged |
| Headers.SetEntryAsWritten | src/eds/http/headers.cpp:152-169 | as written: with append on a present name the table is unchanged, otherwise it agrees with SetEntry |
| Headers.AppendIsNoOp | src/eds/http/headers.cpp:155-160 | appending to an existing header leaves the table as it was, where the intended append changes it |
| Headers.SetEntryAgrees | src/eds/http/headers.cpp:152-169 | without append, or for a new name, both versions agree |
| Headers.OtherNameIsNotClose | src/eds/http/headers.cpp:171-175 | only a ten-character name can raise the close flag |
| Headers.IntHeaderReadsBack | src/eds/http/headers.cpp:197-203 | a header set by SetIntHeader holds the "%d" text, which atoi reads back as the value |
| Headers.HeaderLinesAppend | src/eds/http/headers.cpp:46-51 | the written lines of two runs of entries are the lines of each, concatenated |
| Headers.HeaderTable.constructor | src/eds/http/headers.cpp:35-40 | a new table is empty, unlocked and not closing |
| Headers.HeaderTable.Reset | src/eds/http/headers.cpp:35-40 | the table is emptied and unlocked and the close flag cleared |
| Headers.HeaderTable.Lock | src/eds/http/headers.cpp:150 | the table is locked and otherwise unchanged |
| Headers.HeaderTable.Header | src/eds/http/headers.cpp:127-134 | the stored value, or "" when the name is absent |
| Headers.HeaderTable.HasHeader | src/eds/http/headers.cpp:120-124 | true exactly when the name is present |
| Headers.HeaderTable.HeaderIfExists | src/eds/http/headers.cpp:137-145 | the flag says whether the name is present; then the value is the stored one, else the value passed in |
| Headers.HeaderTable.SetHeader | src/eds/http/headers.cpp:148-181 | nothing while locked; otherwise the table becomes the corrected SetEntry of the old one (append stores the joined value; see Findings), and the close flag is raised by "Connection: close" in any case |
| Headers.HeaderTable.SetBoolHeader | src/eds/http/headers.cpp:184-187 | the header is set to "true" or "false" |
| Headers.HeaderTable.SetIntHeader | src/eds/http/headers.cpp:198-203 | the header is set to the "%d" text of the value |
| Headers.HeaderTable.SetUIntHeader | src/eds/http/headers.cpp:190-195 | the header is set to the "%u" text of the value |
| Headers.HeaderTable.RemoveHeader | src/eds/http/headers.cpp:214-226 | nothing and "" while locked; otherwise the header is erased and its old value (or "") returned |
| Headers.HeaderTable.ParseHeaderLine | src/eds/http/headers.cpp:89-117 | succeeds exactly when ParseLine does; on success the name and value are stored as SetHeader would; on failure nothing changes |
| Headers.HeaderTable.WriteToStream | src/eds/http/headers.cpp:43-57 | every header as "name: value" CRLF in name order, then one more CRLF |
| Request.ScanEnd | trunk/src/eds/http/request.cpp:131 | the pointer loop stops at the first stopping character at or after p, or at the end; nothing before it stops |
| Request.ScanEndAt | trunk/src/eds/http/request.cpp:131 | the scan ends exactly at a position with no stopping character before it and a stopping one (or the end) there |
| Request.ScanUntil | trunk/src/eds/http/request.cpp:131 | the pointer loop computes ScanEnd |
| Request.Find | trunk/src/eds/http/request.cpp:118 | strstr: Some(i) exactly when the pattern occurs, with i its first occurrence; None when it occurs nowhere |
| Request.QueryList | trunk/src/eds/http/request.cpp:159-186 | the query list alternates names and values |
| Request.QueryWithoutEquals | trunk/src/eds/http/request.cpp:169-183 | a query without '=' holds no pairs: the loop breaks at once |
| Request.QueryPair | trunk/src/eds/http/request.cpp:165-185 | "name=value&rest" gives the decoded pair, then the pairs of rest |
| Request.QueryLastPair | trunk/src/eds/http/request.cpp:165-185 | the last piece "name=value" gives one decoded pair |
| Request.QueryEmptyNameDropped | trunk/src/eds/http/request.cpp:172-178 | a piece with an empty name is skipped |
| Request.QueryNameSpansAmpersand | trunk/src/eds/http/request.cpp:167-173 | the name runs to the next '=' even past an '&': "a&b=c" gives ("a&b", "") and ("b", "c") |
| Request.QueryNamesNonempty | trunk/src/eds/http/request.cpp:174-178 | no stored name is empty |
| Request.FirstValueAbsent | trunk/src/eds/http/request.cpp:190-205 | a parameter that is not a name gives "" |
| Request.FirstValueOfFirstMatch | trunk/src/eds/http/request.cpp:190-205 | a parameter gives the value of its first occurrence as a name |
| Request.EmptyParamNotFound | trunk/src/eds/http/request.cpp:174-205 | the empty parameter is never found |
| Request.PortOf | trunk/src/eds/http/request.cpp:145-153 | the port is never 0: all-zero digits keep 80, other digits give their value |
| Request.HostPort | trunk/src/eds/http/request.cpp:129-153 | the host/port scan ends inside the text, keeps port 80 without a host, and never yields port 0 |
| Request.ParseTarget | trunk/src/eds/http/request.cpp:107-187 | the query list alternates names and values, and a target without a host keeps port 80 |
| Request.PathQueryWithQuery | trunk/src/eds/http/request.cpp:155-163 | the '?' splits the resource text from the query text |
| Request.PathQueryWithoutQuery | trunk/src/eds/http/request.cpp:155-159 | a path without '?' has no query |
| Request.AuthorityHostOnly | trunk/src/eds/http/request.cpp:133-138 | text with none of ':' '/' '?' is all host, with resource "" |
| Request.AuthorityWithPort | trunk/src/eds/http/request.cpp:139-153 | "host:digits rest" gives the host, the port of the digits, and rest as path and query |
| Request.AuthorityWithoutHost | trunk/src/eds/http/request.cpp:129-157 | a target starting with '/' or '?' names no host and keeps port 80 |
| Request.TargetWithScheme | trunk/src/eds/http/request.cpp:118-123 | "scheme://rest" splits off the scheme |
| Request.TargetWithoutScheme | trunk/src/eds/http/request.cpp:124-127 | without "://" the scheme is "http" |
| Request.OriginFormTarget | trunk/src/eds/http/request.cpp:107-187 | "/path?query" gives scheme http, no host, port 80, the decoded path and the query list |
| Request.PathOnlyTarget | trunk/src/eds/http/request.cpp:107-187 | "/path" gives no host, port 80, the decoded path and no query |
| Request.HostOnlyTarget | trunk/src/eds/http/request.cpp:133-138 | "scheme://host" gives the host, port 80 and resource "" |
| Request.AbsoluteTarget | trunk/src/eds/http/request.cpp:107-187 | every part of "scheme://host:port/path?query" is read back, the port as the number written |
| Request.ZeroPortKeepsDefault | trunk/src/eds/http/request.cpp:151-152 | "host:0…" and "host:" keep port 80 |
| Request.FirstLineWords | trunk/src/eds/http/request.cpp:208-230 | the method and the target hold no white space and the version does not start with it |
| Request.FirstLineFields | trunk/src/eds/http/request.cpp:208-237 | "METHOD target version" is read back into its three fields |
| Request.Request.constructor | trunk/src/eds/http/request.cpp:35-45 | scheme http, no host, port 80, "GET /", no body, and a fresh response |
| Request.Request.Reset | trunk/src/eds/http/request.cpp:48-58 | the message and the response start over, the body is emptied, the method and target are kept |
| Request.Request.SetMethod | trunk/src/eds/http/request.cpp:95-98 | the method is set and nothing else changes |
| Request.Request.SetResource | trunk/src/eds/http/request.cpp:107-187 | every field of the target is assigned from ParseTarget, except that a target without a host leaves the host as it was |
| Request.Request.GetQueryValue | trunk/src/eds/http/request.cpp:190-205 | the value after the first name equal to the parameter, or "" |
| Request.Request.ParseFirstLine | trunk/src/eds/http/request.cpp:208-237 | always true; the method, the target (through SetResource) and the version are the three fields of the line |
| Request.ScanFirstLine | trunk/src/eds/http/request.cpp:210-230 | the pointer walk yields FirstLine's fields |
| Request.ScanTarget | trunk/src/eds/http/request.cpp:107-187 | the pointer walk over the target yields ParseTarget |
| Request.ScanHostPort | trunk/src/eds/http/request.cpp:129-153 | the host and port loops yield HostPort |
| Request.ScanPathQuery | trunk/src/eds/http/request.cpp:155-186 | the loop to '?', the unescaped resource and the query list |
| Request.ScanPort | trunk/src/eds/http/request.cpp:145-150 | newport*10+digit over the digit run, wrapping as a 32-bit int |
| Request.ParseQuery | trunk/src/eds/http/request.cpp:159-186 | the do-while loop pushes exactly QueryList of the query text |
| Request.QueryStep | trunk/src/eds/http/request.cpp:166-184 | one pass pushes the piece's pair and moves past the '&', consistently with QueryList |
| Request.ScanPiece | trunk/src/eds/http/request.cpp:167-173 | the name before the '=', the value up to the '&', and the end of the piece (r.size() without '&') |
| Request.Request.AssignFirstLine | trunk/src/eds/http/request.cpp:215-231 | the method and the version become the line's first and third fields; the target is parsed as SetResource does; the body is kept |
| Request.Request.SetContentBody | trunk/src/eds/http/request.h:53 | the content body becomes the given part; the method and every target field are kept |
| ReaderStage.StoreHeader | trunk/src/eds/http/readerstage.cpp:320-328 | the pending header is parsed into a table that stays ordered, or the step fails |
| ReaderStage.HeaderStep | trunk/src/eds/http/readerstage.cpp:309-364 | a line in the header block keeps the header table ordered (folding, storing and the blank line) |
| ReaderStage.LineStep | trunk/src/eds/http/readerstage.cpp:278-371 | ProcessCurrentLine keeps the header table ordered in every state |
| ReaderStage.SizeOf | trunk/src/eds/http/readerstage.cpp:231 | ContentLength's int as size_t: non-negative values kept, negative ones sign-extended to 2^64 + n |
| ReaderStage.Consumed | trunk/src/eds/http/readerstage.cpp:240-244 | no more bytes than are available are consumed |
| ReaderStage.ConsumedNothing | trunk/src/eds/http/readerstage.cpp:240-255 | nothing is consumed exactly when nothing is available or the body is read up to its length |
| ReaderStage.SizeDifference | trunk/src/eds/http/readerstage.cpp:240 | the size_t difference is a - b, or a - b + 2^64 when b is larger |
| ReaderStage.BodyAppend | trunk/src/eds/http/readerstage.cpp:250-255 | the body text grows by exactly the bytes; a body part exists unless none existed and no bytes came |
| ReaderStageProperties.BodyStepWithLength | trunk/src/eds/http/readerstage.cpp:225-273 | with Content-Length len, min(len - read, available) bytes are appended and counted, and the request is complete when they reach len |
| ReaderStage.BodyStepProgress | trunk/src/eds/http/readerstage.cpp:225-273 | a body round on available bytes completes the request or consumes at least one byte, and keeps the counters well formed |
| ReaderStage.LineEnd | trunk/src/eds/http/readerstage.cpp:181 | the first CR or LF at or after p, or the end |
| ReaderStage.LineAdvance | trunk/src/eds/http/readerstage.cpp:184-191 | the next line starts past the terminator, two past a CR, never beyond the buffer |
| ReaderStage.ReaderState.constructor | trunk/src/eds/http/readerstage.cpp:54-57 | awaits the first line with empty lines, no body part, zero counters and a fresh request |
| ReaderStage.ReaderState.Reset | trunk/src/eds/http/readerstage.cpp:66-75 | back to the first line with no body part, zero counters, not fully read, and a reset request; the lines are kept |
| ReaderStage.ReaderState.ProcessCurrentLine | trunk/src/eds/http/readerstage.cpp:278-371 | the result and the new state are LineStep of the old state |
| ReaderStage.ReaderState.ProcessFirstLine | trunk/src/eds/http/readerstage.cpp:285-297 | the request line is parsed, which always succeeds: the request's method and version are the first and third fields of the line and its target fields are ParseTarget of the second; the header block follows |
| ReaderStage.ReaderState.EnterHeaders | trunk/src/eds/http/readerstage.cpp:295-297 | the pending header line is emptied and the reader records the line as the request line and moves on to the header block; the body part is untouched |
| ReaderStage.ReaderState.ProcessHeaderLine | trunk/src/eds/http/readerstage.cpp:309-364 | the result and the new state are HeaderStep of the old state |
| ReaderStage.ReaderState.StorePending | trunk/src/eds/http/readerstage.cpp:320-331 | succeeds exactly when the pending header parses; then it is stored and emptied, otherwise nothing changes |
| ReaderStage.ReaderState.EndOfHeaders | trunk/src/eds/http/readerstage.cpp:335-358 | the blank line starts a body, or a chunk size for Transfer-Encoding "chunked" in any case; other encodings fail |
| ReaderStage.ReaderState.ProcessBodyData | trunk/src/eds/http/readerstage.cpp:225-273 | the new state and the bytes consumed are BodyStep of the old state; a completed body becomes the request's content body |
| ReaderStage.ReaderState.UpdateCounts | trunk/src/eds/http/readerstage.cpp:257-267 | the count grows modulo 2^32 and a complete body marks the request fully read |
| ReaderStage.ReaderState.ReadLine | trunk/src/eds/http/readerstage.cpp:181-183 | the bytes up to the next CR or LF are added to the line |
| ReaderStage.ReaderState.ProcessBytes | trunk/src/eds/http/readerstage.cpp:169-222 | the result, the reader and where pStart is left are those of Process with the scanning pointer moved past consumed body bytes (the corrected body scan; see Findings) |
| ReaderStage.ReaderState.AssembleRequest | trunk/src/eds/http/readerstage.cpp:150-167 | the request is returned exactly when the corrected ProcessBytes succeeds with the request fully read |
| ReaderStage.FixedBodyAt | trunk/src/eds/http/readerstage.cpp:209-219 | with the pointer moved past consumed bytes, a round returns (complete, or the buffer used up) or scans on from the new position |
| ReaderStageProperties.PartialLineKept | trunk/src/eds/http/readerstage.cpp:181-197 | an unfinished line is kept whole for the next call, which returns true with pStart at the end |
| ReaderStageProperties.BlankLineCompletesBodilessRequest | trunk/src/eds/http/readerstage.cpp:335-358 | without Content-Length or Transfer-Encoding the blank line completes the request at once |
| ReaderStageProperties.ChunkedBodyEndsAtFirstSizeLine | trunk/src/eds/http/readerstage.cpp:298-308 | the chunk-size line is not parsed: the chunked body completes empty at the first size line |
| ReaderStageProperties.BodyBytesReadTwice | trunk/src/eds/http/readerstage.cpp:209-219 | as written, Content-Length 4 with "ab" buffered gives the body "abab" and a complete request; the fixed scan gives "ab" and waits for more |
| ReaderStage.ReaderState.ParseRequestLine | trunk/src/eds/http/readerstage.cpp:285-297 | a first line is always accepted, since ParseFirstLine cannot fail; the method, the version and the target fields are those FirstLine and ParseTarget read from the line, and the request stays well formed |
| ReaderStage.ReaderState.LineRound | trunk/src/eds/http/readerstage.cpp:179-205 | the rest of the corrected run from this line (LineAt) equals either the round's final result, or the run continued past the line, in the body branch when the reader now reads body data; the body part is untouched |
| ReaderStage.ReaderState.BodyRound | trunk/src/eds/http/readerstage.cpp:207-217 | the rest of the corrected run from these body bytes (BodyAt) equals either the round's final result, when the body is complete or the buffer used up, or the run continued past the bytes consumed |
| ReaderStage.ReaderState.AppendBodyBytes | trunk/src/eds/http/readerstage.cpp:246-253 | the chunk is added to the body; a part already open is kept and a new one is fresh |
| Message.ContentTypeIsNotClose | trunk/src/eds/http/message.cpp:93-98 | the default Content-Type header never raises the close flag |
| Message.ContentLengthOf | trunk/src/eds/http/message.cpp:139-145 | 0 without a Content-Length header |
| Message.ContentLengthReadsBack | trunk/src/eds/http/message.cpp:139-145 | a Content-Length written with "%d" reads back as the same int |
| Message.MultipartIsPrefix | trunk/src/eds/http/message.cpp:148-153 | multipart exactly when a Content-Type is present and its C string starts with "multipart" |
| Message.DefaultIsSinglePart | trunk/src/eds/http/message.cpp:93-98 | the default "text/html" message is not multipart |
| Message.ReadFromStream | trunk/src/eds/http/message.cpp:121-130 | reading a message from a stream never succeeds, since ReadMessageBody returns false |
| Message.Message.constructor | trunk/src/eds/http/message.cpp:93-98 | version HTTP/1.1, no body parts, Content-Type text/html, unlocked and not closing |
| Message.Message.Reset | trunk/src/eds/http/message.cpp:106-112 | the same state as a new message |
| Message.Message.NewBodyPart | trunk/src/eds/http/message.cpp:115-118 | a fresh empty part numbered with the old count, which grows by one |
| Message.Message.SetVersion | trunk/src/eds/http/message.cpp:156-159 | the version is set and the part count kept |
| Message.Message.ContentLength | trunk/src/eds/http/message.cpp:139-145 | ContentLengthOf the headers |
| Message.Message.IsMultipart | trunk/src/eds/http/message.cpp:148-153 | IsMultipartOf the headers |
| Message.Message.WriteToStream | trunk/src/eds/http/message.cpp:162-176 | succeeds and writes the header lines and the closing CRLF, no body |
| Response.StatusLine | src/eds/http/response.cpp:54 | version, space, decimal code, space, reason and CRLF: length and framing |
| Response.StatusLineFields | src/eds/http/response.cpp:54 | the three fields are read back by splitting at the first two spaces |
| Response.Response.constructor | src/eds/http/response.cpp:21-25 | status 200 "OK" on a new message |
| Response.Response.Reset | trunk/src/eds/http/message.cpp:106-112 | the message is reset and the status kept |
| Response.Response.SetStatus | src/eds/http/response.cpp:45-49 | both fields change and nothing else |
| Response.Response.WriteToStream | src/eds/http/response.cpp:52-60 | the status line, then the header block |
| BodyParts.ComparerIsStrictWeakOrder | trunk/src/eds/bodypart.cpp:39-42 | the comparer is irreflexive, transitive and asymmetric, and incomparability is equal index |
| BodyParts.TopIsSmallestIndex | trunk/src/eds/bodypart.cpp:39-42 | the top of the priority queue is exactly a part of least index |
| BodyParts.BodyPart.constructor | trunk/src/eds/bodypart.cpp:33-36 | an empty part with the given index and type |
| BodyParts.BodyPart.Reset | trunk/src/eds/http/message.cpp:51-54 | the body becomes empty, nothing else changes |
| BodyParts.BodyPart.SetBody | trunk/src/eds/bodypart.cpp:57-66 | the body becomes a copy of the buffer |
| BodyParts.BodyPart.AppendToBody | trunk/src/eds/bodypart.cpp:81-90 | the old body, then the buffer |
| BodyParts.BodyPart.InsertInBodyAt | trunk/src/eds/bodypart.cpp:75-78 | the buffer is inserted before offset, keeping what was before and after it |
| BodyParts.BodyPart.InsertInBody | trunk/src/eds/bodypart.cpp:69-72 | the string overload drops its offset: the text always goes in front |
| BodyParts.BodyPart.WriteToStream | trunk/src/eds/bodypart.cpp:93-98 | a raw part writes its bytes from `from` on and returns their number; file and lazy parts write nothing and return 0 |
| BodyParts.BodyPart.WriteToConnection | trunk/src/eds/bodypart.cpp:101-108 | a raw part offers the unsent bytes, counts positive sends and reports more exactly when the send was short; a lazy part reports nothing more |
| BodyParts.SentPiecesCoverBody | trunk/src/eds/bodypart.cpp:101-108 | successive sends whose counts add up to the size offer the whole body in order |
| HttpModule.InsertPos | src/eds/http/httpmodule.cpp:78-82 | where push puts a part: after every part of no larger index, before the first larger one |
| HttpModule.Enqueue | src/eds/http/httpmodule.cpp:78-82 | push adds exactly the part (as a multiset) and keeps the queue sorted by index |
| HttpModule.HeadIsTop | src/eds/http/httpmodule.cpp:41-44 | the first part of a sorted queue is the top of the priority queue |
| HttpModule.TopHasIndexAtHead | src/eds/http/httpmodule.cpp:63-66 | in a sorted queue, the top has the expected index exactly when the first part has it |
| HttpModule.Release | src/eds/http/httpmodule.cpp:59-75 | a released part carries nextBP, which goes up by one, and the queue shrinks by one; otherwise nothing changes |
| HttpModule.ReleaseKeepsParts | src/eds/http/httpmodule.cpp:59-75 | the released part plus the rest is the old queue, and the queue stays sorted |
| HttpModule.ReleaseTakesTop | src/eds/http/httpmodule.cpp:63-71 | a part is released exactly when a top part has the expected index, and it is a top part |
| HttpModule.RunQueue | src/eds/http/httpmodule.cpp:59-89 | any run of puts and nexts keeps the queue sorted |
| HttpModule.ReleasedInIndexOrder | src/eds/http/httpmodule.cpp:59-89 | over any interleaving of puts and nexts the parts come out numbered n, n+1, … and the count ends past the last |
| HttpModule.ReleasedOrQueued | src/eds/http/httpmodule.cpp:59-89 | every part put is released or still queued, and nothing else is |
| HttpModule.DrainedStopsAtGap | src/eds/http/httpmodule.cpp:59-75 | the drain loop releases consecutive indices and stops where the next index is missing |
| HttpModule.StuckStaysStuck | src/eds/http/httpmodule.cpp:59-75 | once NextBodyPart returns NULL, further calls return NULL and change nothing |
| HttpModule.DrainedIsRunOfNexts | src/eds/http/httpmodule.cpp:59-75 | the drain loop is as many NextBodyPart calls as there are queued parts |
| HttpModule.PendingStep | src/eds/http/httpmodule.cpp:59-75 | handling a released part and releasing the next keeps the drain loop's state |
| HttpModule.ModuleData.constructor | src/eds/http/httpmodule.h:40 | both counts 0, not processing, nothing queued |
| HttpModule.ModuleData.Reset | src/eds/http/httpmodule.h:46-50 | both counts 0 and not processing; the queue is kept |
| HttpModule.ModuleData.SetProcessing | src/eds/http/httpmodule.h:56 | only the processing flag changes |
| HttpModule.ModuleData.NextBodyPart | src/eds/http/httpmodule.cpp:59-75 | the part, queue and count are those of Release on the old queue and count |
| HttpModule.ModuleData.PutBodyPart | src/eds/http/httpmodule.cpp:78-82 | NULL is ignored; any other part is enqueued |
| HttpModule.ModuleData.PutAndGetBodyPart | src/eds/http/httpmodule.cpp:85-89 | Release applied to the queue after the put |
| HttpModule.SendBodyPartToModule | src/eds/http/httpmodule.cpp:195-204 | a part is stamped with nextBPToSend, which goes up by one; NULL passes through unstamped |
| HttpModule.StampedPartsDrainInOrder | src/eds/http/httpmodule.cpp:59-89 | parts stamped by one module and put into the next module's queue in order are drained all, in order |
| HttpModule.ConsecutiveDrainInOrder | src/eds/http/httpmodule.cpp:59-89 | parts numbered n, n+1, … put and then drained come out as they went in, leaving the queue empty |
| HttpModule.FindModule | src/eds/http/httpmodule.cpp:167-175 | the position of the first entry for the module, or None when there is none |
| HttpModule.SetDataThenFind | src/eds/http/httpmodule.cpp:142-185 | after SetModuleData(m, d), m finds d and every other module finds what it found before |
| HttpModule.SetSameDataDuplicates | src/eds/http/httpmodule.cpp:150-160 | setting a module's data to the data it holds appends a duplicate entry |
| HttpModule.HandlerData.constructor | src/eds/http/httpmodule.cpp:92-94 | no module data and no requests |
| HttpModule.HandlerData.GetModuleData | src/eds/http/httpmodule.cpp:165-185 | the first entry's data; without one NULL, or with create a fresh reset data object appended to the list |
| HttpModule.HandlerData.SetModuleData | src/eds/http/httpmodule.cpp:142-161 | the list becomes SetData of the old list |
| HttpModule.HandlerData.ResetModuleData | src/eds/http/httpmodule.cpp:115-127 | every entry's data is reset and keeps its queue |
| HttpModule.HandlerData.DestroyRequest | src/eds/http/httpmodule.cpp:130-138 | the oldest request, if any, is dropped |
| ContentModule.CloseDelimiter | src/eds/http/contentmodule.cpp:107-110 | CRLF "--" boundary "--": length and layout |
| ContentModule.CloseAllSplit | src/eds/http/contentmodule.cpp:130-139 | the closing part holds the close-delimiters of the open boundaries, innermost first |
| ContentModule.FrameBody | src/eds/http/contentmodule.cpp:160-165 | a part read back from its framing starts with the boundary's delimiter and ends with the body |
| ContentModule.FrameBodyOfPreamble | src/eds/http/contentmodule.cpp:160-165 | a framed part reads back as the body it framed: its Content-Length is the body's size |
| ContentModule.CurrentLength | src/eds/http/contentmodule.cpp:189-194 | -1 without a Content-Length header, else atoi of it |
| ContentModule.SizedHeaders | src/eds/http/contentmodule.cpp:187-202 | setting the size keeps the header table ordered |
| ContentModule.Handle | src/eds/http/contentmodule.cpp:72-208 | one part handled: the parts sent carry consecutive indices from the count, which ends past them; a fault sends nothing and changes nothing |
| ContentModule.HandleAllSnoc | src/eds/http/contentmodule.cpp:56-61 | handling one more part extends the run by that part's step |
| ContentModule.OpenThenClose | src/eds/http/contentmodule.cpp:82-120 | opening then closing a sub-message leaves the stack as it was and sends only that boundary's close-delimiter |
| ContentModule.UnmatchedCloseDropped | src/eds/http/contentmodule.cpp:115-119 | a close with no open boundary sends nothing and changes nothing |
| ContentModule.FinishClosesAll | src/eds/http/contentmodule.cpp:121-146 | finishing closes every open boundary in one raw part sent first, then sends the finishing part; the stack ends empty |
| ContentModule.ClosesMatchCloseAll | src/eds/http/contentmodule.cpp:95-146 | k closes take the k innermost boundaries and send what the finishing part would have sent for them |
| ContentModule.MultipartFraming | src/eds/http/contentmodule.cpp:151-168 | in a multipart response a data part is framed with the innermost boundary and its own size and reads back as the body; with no boundary it is a fault |
| ContentModule.SinglePartLength | src/eds/http/contentmodule.cpp:169-206 | a single-part body goes on unchanged; a non-empty body sets Content-Length to its size (unless locked) and no other header changes |
| ContentModule.SentInOrder | src/eds/http/contentmodule.cpp:56-61 | over any parts, the parts sent carry consecutive indices from the count |
| ContentModule.SizedHeadersKeepMultipart | src/eds/http/contentmodule.cpp:199-202 | setting Content-Length does not change whether the response is multipart |
| ContentModule.ContentModuleData.constructor | src/eds/http/httpmodule.h:40 | module data with both counts 0, not processing, nothing queued and no boundaries |
| ContentModule.ContentModuleData.Reset | src/eds/http/contentmodule.h:27-31 | the common reset, and the boundary stack is cleared |
| ContentModule.HandleClose | src/eds/http/contentmodule.cpp:95-120 | the module state and the parts sent follow CloseStep |
| ContentModule.HandleFinish | src/eds/http/contentmodule.cpp:121-146 | the module state and the parts sent follow FinishStep |
| ContentModule.HandleMultipartData | src/eds/http/contentmodule.cpp:151-168 | the module state, the parts sent and the fault follow DataStep |
| ContentModule.HandleSinglePartData | src/eds/http/contentmodule.cpp:169-206 | the headers become SizedHeaders and the part is sent stamped with the count |
| ContentModule.HandleBodyPart | src/eds/http/contentmodule.cpp:72-208 | the module state, the parts sent and the fault are Handle of the old state |
| ContentModule.ProcessOutput | src/eds/http/contentmodule.cpp:35-70 | nothing while processing; NULL is sent on; otherwise the part is queued and every part released is handled in index order |
| ContentModule.DrainQueue | src/eds/http/contentmodule.cpp:52-61 | the queue and count after the drain, and the handling of every part drained |
| ContentModule.HandleAll | src/eds/http/contentmodule.cpp:56-61 | handling the queued parts one after another keeps the header table ordered |
| TransferModule.HexRun | src/eds/http/transfermodule.cpp:81-83 | the longest run of lower-case hexadecimal digits at the start |
| TransferModule.ChunkData | src/eds/http/transfermodule.cpp:79-85 | a chunk read back (section 4.1 of RFC 7230) is shorter than its frame |
| TransferModule.ChunkRoundTrip | src/eds/http/transfermodule.cpp:78-85 | a chunk of a body whose size fits 32 bits reads back as the body |
| TransferModule.OnlyExactChunkedFrames | src/eds/http/transfermodule.cpp:67-79 | only the exact value "chunked" frames the body; "Chunked" or a missing header leave it byte for byte |
| TransferModule.TransferStep | src/eds/http/transfermodule.cpp:58-89 | with the double send removed, one part goes on and the counter goes up by one |
| TransferModule.TransferStepAsWritten | src/eds/http/transfermodule.cpp:69-88 | as written a finishing part is sent twice |
| TransferModule.FinishSentTwiceAsWritten | src/eds/http/transfermodule.cpp:69-88 | as written a finishing part reaches the next module twice, both numbered n+1, and the next module's drain releases nothing |
| TransferModule.FinishSentOnce | src/eds/http/transfermodule.cpp:69-88 | corrected, a finishing part goes on once, numbered n, and the next module releases it |
| TransferModule.TransferAllNumbers | src/eds/http/transfermodule.cpp:36-45 | with the corrected TransferStep, each part handled goes on transformed, once, and numbered n, n+1, … |
| TransferModule.TransformedAll | src/eds/http/transfermodule.cpp:70-86 | the parts after framing, one for one |
| TransferModule.SentPartsDrainDownstream | src/eds/http/transfermodule.cpp:36-45 | with the corrected TransferStep, what is sent, put into the next module's queue in order, is released entirely in the order handled |
| TransferModule.TransferAllSnoc | src/eds/http/transfermodule.cpp:39-44 | handling one more part extends the run by that part's step |
| TransferModule.HandleBodyPart | src/eds/http/transfermodule.cpp:58-89 | the parts sent and the new counter are the corrected TransferStep (a finishing part goes on once) under the response's Transfer-Encoding |
| TransferModule.ProcessOutput | src/eds/http/transfermodule.cpp:24-55 | nothing while processing; NULL is forwarded; otherwise the part is queued and every released part handled in order by the corrected HandleBodyPart |
| TransferModule.DrainQueue | src/eds/http/transfermodule.cpp:36-45 | the queue, counts and parts sent after queueing the part and draining through the corrected TransferStep |
| UrlRouter.FirstFrom | src/eds/http/urlrouter.cpp:48 | strstr's first occurrence at or after a position: an occurrence, with none before it, or none at all |
| UrlRouter.FirstAtStart | src/eds/http/urlrouter.cpp:48-52 | the first occurrence is at the start exactly when the resource starts with the pattern |
| UrlRouter.ContainsAsWrittenIsPrefixOnly | src/eds/http/urlrouter.cpp:38-55 | as written, the contains matcher matches exactly when the flag is PREFIX_MATCH and the resource starts with the pattern |
| UrlRouter.FlagsOr | src/eds/http/urlrouter.cpp:52-54 | OR with MIDDLE_MATCH or SUFFIX_MATCH is never 0, and OR with PREFIX_MATCH is 0 only for PREFIX_MATCH |
| UrlRouter.MiddleAndSuffixNeverMatchAsWritten | src/eds/http/urlrouter.cpp:52-54 | as written, MIDDLE_MATCH and SUFFIX_MATCH matchers never match |
| UrlRouter.ContainsCounterexamples | src/eds/http/urlrouter.cpp:38-55 | "/a" with suffix "a" and "/a/" with middle "a" are rejected as written and accepted by the corrected matcher |
| UrlRouter.ContainsMatchesLocates | src/eds/http/urlrouter.cpp:37-55 | the corrected matcher finds the pattern at 0, anywhere, or at the end, as the flag says, and agrees with the code for PREFIX_MATCH |
| UrlRouter.Matches | trunk/src/eds/http/urlrouter.h:30-57 | the base and regex matchers match nothing; the exact matcher matches its path and nothing else; the location matcher is the corrected ContainsMatches |
| UrlRouter.FirstMatch | src/eds/http/urlrouter.cpp:63-71 | the first matcher in the list that matches, with none before it matching, or None when none matches |
| UrlRouter.LaterMatcherLowerPrecedence | trunk/src/eds/http/urlrouter.h:113 | a matcher added later is consulted only when every earlier one fails |
| UrlRouter.FirstMatchIs | src/eds/http/urlrouter.cpp:63-71 | a position with no earlier match is where the loop stops |
| UrlRouter.Router.constructor | trunk/src/eds/http/urlrouter.h:107 | no matchers, and the default module given |
| UrlRouter.Router.AddUrlMatch | trunk/src/eds/http/urlrouter.h:113 | the matcher is appended |
| UrlRouter.Router.ProcessInput | src/eds/http/urlrouter.cpp:58-82 | the module of the first matching matcher (location matchers by the corrected ContainsMatches), else the default module, else none |
| DirUtils.FilterDotAndDotDot | src/utils/dirutils.cpp:36-43 | the scandir filter answers only 0 (drop) or 1 (keep) |
| DirUtils.FilterDropsOnlyDotAndDotDot | src/utils/dirutils.cpp:36-43 | for a NUL-free name, an entry is dropped exactly when its name is "." or ".." |
| DirUtils.FilterKeepsNearMisses | src/utils/dirutils.cpp:36-43 | names that only begin with dots (".x", "..x", "...") and short names are kept |
| DirUtils.ErrorMessageIffDescribed | src/utils/dirutils.cpp:115-191 | the error text is non-empty exactly for the sixteen error numbers the switch describes, and empty for any other number |
| Replies.ReplyHeadersRead | src/eds/http/filemodule.cpp:41-43 | after a reply's headers are set, Content-Length reads the decimal length, Content-Type the content type, Cache-Control "no-cache" for a listing and its old value otherwise, and every other header is untouched |
| Replies.Answered | src/eds/http/filemodule.cpp:39-133 | answering keeps the lock, the close flag and the version, and uses one part number per part sent |
| Replies.AnswerEndsWithFinish | src/eds/http/filemodule.cpp:131-133 | every reply ends with a CONTENT_FINISHED part, preceded by exactly one raw part carrying the body when there is one, with consecutive part numbers |
| Replies.Answer | src/eds/http/filemodule.cpp:39-133 | the response's new state is the answered state (status, headers unless locked, part count) and the parts sent are the body part then CONTENT_FINISHED |
| Replies.AnswerWithBody | src/eds/http/filemodule.cpp:46-133 | with a body: the raw part is created before the status and headers are set, and the result is the same answered state and parts |
| Replies.AnswerWithoutBody | src/eds/http/filemodule.cpp:39-44 | without a body: the status and headers, then only CONTENT_FINISHED |
| Replies.AnswerHead | src/eds/http/filemodule.cpp:83-87 | the status changes only when the reply carries one; the headers change as ReplyHeaders says unless the table is locked |
| Replies.NewRawPart | trunk/src/eds/http/message.cpp:93-176 | a new raw part holds the data and takes the message's next part number, which advances by one |
| Replies.FinishPart | trunk/src/eds/http/message.cpp:93-176 | the CONTENT_FINISHED part is empty and takes the message's next part number |
| Replies.SetReplyHeaders | src/eds/http/filemodule.cpp:95-98 | sets Content-Length, Content-Type and, for a listing, Cache-Control on an unlocked table, and nothing on a locked one |
| FileModule.NewDirEnt | src/eds/http/filemodule.h:26-29 | a new entry holds the name and a zeroed stat record, which is not a directory |
| FileModule.SignedChars | src/eds/http/filemodule.h:48-50 | the names compare char by char as signed C chars, one value per char |
| FileModule.SignedLessIrreflexive | src/eds/http/filemodule.h:48-50 | no name is lexicographically before itself |
| FileModule.SignedLessTransitive | src/eds/http/filemodule.h:48-50 | the lexicographic order is transitive |
| FileModule.SignedLessTotal | src/eds/http/filemodule.h:48-50 | of two different char sequences one is lexicographically before the other |
| FileModule.SignedLessAsymmetric | src/eds/http/filemodule.h:48-50 | the lexicographic order is asymmetric |
| FileModule.SignedNotLessTransitive | src/eds/http/filemodule.h:48-50 | not-before is transitive |
| FileModule.DirEntCmpIrreflexive | src/eds/http/filemodule.h:33-58 | no entry sorts before itself |
| FileModule.DirEntCmpTransitive | src/eds/http/filemodule.h:33-58 | DirEntCmp is transitive |
| FileModule.DirEntCmpIncomparable | src/eds/http/filemodule.h:33-58 | two entries are unordered exactly when they have the same mode and the same chars, so DirEntCmp is a strict weak order as std::sort needs |
| FileModule.DirEntCmpAsymmetric | src/eds/http/filemodule.h:33-58 | DirEntCmp is asymmetric |
| FileModule.NewDirEntsOrderByName | src/eds/http/filemodule.h:26-58 | entries with zeroed stat records are ordered by name alone |
| FileModule.NotBeforeTransitive | src/eds/http/filemodule.h:33-58 | not-before under DirEntCmp is transitive |
| FileModule.InsertEntryKeeps | src/eds/http/filemodule.cpp:321 | inserting into the listing adds exactly that entry |
| FileModule.InsertEntryMembers | src/eds/http/filemodule.cpp:321 | the listing after an insert holds the old entries and the new one |
| FileModule.InsertEntrySorted | src/eds/http/filemodule.cpp:321 | inserting into a sorted listing keeps it sorted |
| FileModule.HeadStaysFirst | src/eds/http/filemodule.cpp:321 | inserting behind the head of a sorted listing puts nothing before that head |
| FileModule.SortEntriesSortsAndKeeps | src/eds/http/filemodule.cpp:321 | the sorted listing is in DirEntCmp order and a permutation of the entries read |
| FileModule.KeepAsWrittenDropsShortNames | src/eds/http/filemodule.cpp:268-271 | as written, the filter keeps a NUL-free name exactly when it is longer than two characters and does not start with ".." |
| FileModule.KeepAsWrittenDropsTwoLetterName | src/eds/http/filemodule.cpp:268-271 | as written, "js" and "..x" are dropped although filterDotAndDotDot keeps them |
| FileModule.DirectoryEntriesKeep | src/eds/http/filemodule.cpp:258-282 | with the corrected filter an entry is listed exactly when readdir returned it and it is neither "." nor ".." |
| FileModule.SkipSlash | src/eds/http/filemodule.cpp:340-343 | a leading '/' is skipped and any other name is kept whole |
| FileModule.Separator | src/eds/http/filemodule.cpp:342 | a "/" is written exactly when the directory name is non-empty and does not end in '/' |
| FileModule.Href | src/eds/http/filemodule.cpp:338-343 | the link as written starts with the root's prefix |
| FileModule.ListingHref | src/eds/http/filemodule.cpp:338-343 | the corrected link starts with the root's prefix |
| FileModule.FirstRootFrom | src/eds/http/filemodule.cpp:147-160 | the root chosen matches the path and no earlier root does; none is chosen only when no root matches |
| FileModule.RootMatchesIsPrefix | src/eds/http/filemodule.cpp:150-156 | for NUL-free strings a root matches exactly when the path starts with its prefix, and the child is the rest of the path |
| FileModule.EmptyPrefixMatchesAll | src/eds/http/filemodule.cpp:147-160 | a root with an empty prefix matches every path, so no later root is ever chosen |
| FileModule.EarlierRootWins | src/eds/http/filemodule.cpp:145-161 | adding a root never changes the answer for a path an earlier root serves, and serves an unserved path exactly when it matches |
| FileModule.ListingLinkResolves | src/eds/http/filemodule.cpp:338-343 | a corrected link from a listing, parsed by the same root, leads to the directory's child path joined with the entry's name |
| FileModule.ListingHrefOfPlain | src/eds/http/filemodule.cpp:338-343 | the corrected link is the prefix followed by the directory path, a separator and the name |
| FileModule.ServedPath | src/eds/http/filemodule.cpp:145-160 | a path made of the chosen root's prefix and a NUL-free rest parses to that root's document root, the rest and the prefix |
| FileModule.HrefAsWrittenMisses | src/eds/http/filemodule.cpp:340 | as written, under root ("/p/", "/d/") the listing of "/p/s" links "e" as "/p/d/s/e", which parses to the child "d/s/e" instead of "s/e" |
| FileModule.HrefExample | src/eds/http/filemodule.cpp:338-343 | the link as written for prefix "/p/", directory "/d/s" and entry "e" is "/p/d/s/e" |
| FileModule.ListingRowsAppend | src/eds/http/filemodule.cpp:333-359 | the rows of two runs of entries are the rows of the first followed by those of the second |
| FileModule.ListingRowsHoldRow | src/eds/http/filemodule.cpp:333-359 | the entry at position k has its row right after the rows of the k entries before it |
| FileModule.DirectoryPageListsEntry | src/eds/http/filemodule.cpp:299-371 | with the corrected filter and links, every entry readdir returned other than "." and ".." has its row on the directory's page, wherever the sort puts it |
| FileModule.UnreadableDirectoryPage | src/eds/http/filemodule.cpp:362-365 | a directory that cannot be opened gives a page carrying "Error: Cannot open directory: " and strerror's text |
| FileModule.OpenErrorText | src/eds/http/filemodule.cpp:172-254 | OpenFile's error text is never empty: the switch's message for a described errno, else "Unknown Error" |
| FileModule.StatErrorText | src/eds/http/filemodule.cpp:52-82 | a failed stat always gives a non-empty error text |
| FileModule.UnknownRootIsNotFound | src/eds/http/filemodule.cpp:39-44 | a resource under no document root is answered 404 "Not Found", Content-Length 0, text/text and no body |
| FileModule.ReplyLengthMatchesBody | src/eds/http/filemodule.cpp:39-127 | only "Not Found" has no body; every other error status has a non-empty text/text body; Content-Length is the body's length except for a file, where it is st_size |
| FileModule.FileModule.constructor | src/eds/http/filemodule.h:66-67 | a new file module has no document roots |
| FileModule.FileModule.AddDocRoot | src/eds/http/filemodule.h:90-93 | the root is appended behind every root added before it |
| FileModule.FileModule.ParsePath | src/eds/http/filemodule.cpp:145-161 | true and the first matching root's document root, child path and prefix, or false with the three outputs untouched |
| FileModule.FileModule.Decide | src/eds/http/filemodule.cpp:39-127 | the reply chosen is FileReply's for the resource and the file system, whose listings use the corrected name filter and links |
| FileModule.FileModule.ProcessInput | src/eds/http/filemodule.cpp:22-134 | the response ends in the state the reply describes (listings with the corrected filter and links), and the body part (if any) and then CONTENT_FINISHED are sent on |
| MimeTypes.InsertAllKeeps | trunk/src/utils/mimetypes.cpp:46-91 | std::map::insert never changes a key that is already mapped |
| MimeTypes.InsertAllFirstWins | trunk/src/utils/mimetypes.cpp:46-91 | a key not mapped before gets the value of its first pair, whatever follows |
| MimeTypes.SpaceEnd | trunk/src/utils/mimetypes.cpp:76-77 | the scan stops at the first non-space character, or the end |
| MimeTypes.DelimEnd | trunk/src/utils/mimetypes.cpp:82-85 | strtok_r skips exactly the leading spaces and tabs |
| MimeTypes.TokenEnd | trunk/src/utils/mimetypes.cpp:82-85 | a token runs up to the first space or tab, or the end |
| MimeTypes.StrTok | trunk/src/utils/mimetypes.cpp:82-85 | the next token is non-empty, holds no delimiter and is followed by a later position; there is none exactly when only delimiters are left |
| MimeTypes.InsertTokensIsInsertAll | trunk/src/utils/mimetypes.cpp:86-89 | the loop inserts the line's later tokens one after another, each with the line's type |
| MimeTypes.Pairs | trunk/src/utils/mimetypes.cpp:86-89 | each token paired with the type, one pair per token |
| MimeTypes.EntryLineHasType | trunk/src/utils/mimetypes.cpp:79-85 | a line that passes the test has a first token, the type |
| MimeTypes.LoadLinesKeeps | trunk/src/utils/mimetypes.cpp:73-91 | loading mime.types keeps every mapping already present |
| MimeTypes.BuiltInsWin | trunk/src/utils/mimetypes.cpp:46-91 | every built-in type is in the initial table with its built-in value, whatever mime.types says or whether it opens |
| MimeTypes.LoadEntryLine | trunk/src/utils/mimetypes.cpp:79-90 | an entry line inserts its later tokens, in order, with its first token as their type |
| MimeTypes.EntryLineAdds | trunk/src/utils/mimetypes.cpp:79-90 | each later token not mapped yet, and not repeated earlier on the line, maps to the line's type |
| MimeTypes.TokensReachEnd | trunk/src/utils/mimetypes.cpp:82-89 | when the text ends in a non-delimiter, the last token runs to its end |
| MimeTypes.LastTokenKeepsNewline | trunk/src/utils/mimetypes.cpp:73-89 | since only space and tab separate tokens, the last extension on a line keeps the line's newline |
| MimeTypes.CommentAndBlankLinesIgnored | trunk/src/utils/mimetypes.cpp:75-79 | a blank line, or one whose first non-space character is '#' or the end of the C string, changes nothing |
| MimeTypes.ScanBack | trunk/src/utils/mimetypes.cpp:128-131 | the backwards walk stops at a '.' or at the first character, with no '.' passed over |
| MimeTypes.ExtensionAfterLastDot | trunk/src/utils/mimetypes.cpp:125-146 | a name has an extension exactly when it has a '.' after its first character, and the extension is what follows the last '.' |
| MimeTypes.ExtensionExamples | trunk/src/utils/mimetypes.cpp:125-146 | ".bashrc" and "README" have no extension; "a.tar.gz" has "gz" |
| MimeTypes.SetMimeTypeGoverns | trunk/src/utils/mimetypes.cpp:111-146 | after SetMimeType(ext, t) every name with that extension gets t and every other name keeps its type |
| MimeTypes.MimeTable.constructor | trunk/src/utils/mimetypes.cpp:41-93 | the table holds the built-in pairs, then the entries of mime.types that do not override them |
| MimeTypes.MimeTable.LoadLineInto | trunk/src/utils/mimetypes.cpp:73-90 | one pass of the fgets loop applies that line |
| MimeTypes.MimeTable.SetMimeType | trunk/src/utils/mimetypes.cpp:111-114 | the extension maps to the new type, replacing any mapping |
| MimeTypes.MimeTable.GetMimeType | trunk/src/utils/mimetypes.cpp:125-146 | the type of the name's extension, or "application/binary" |
| MimeTypes.StrTokR | trunk/src/utils/mimetypes.cpp:82-85 | the loop finds the same token and position as strtok_r |
| MemBuffer.GrownCapacityBounds | src/utils/membuff.cpp:79-87 | growing never shrinks, always meets the request, reallocates only when the request exceeds the capacity, and then at least doubles |
| MemBuffer.GrownCapacityLeast | src/utils/membuff.cpp:81 | the new capacity is the smallest that both meets the request and doubles the old one |
| MemBuffer.GrownCapacityIdempotent | src/utils/membuff.cpp:71-88 | growing twice to the same request is the same as growing once |
| MemBuffer.MemBuff.constructor | src/utils/membuff.cpp:40-45 | a new buffer is empty and has exactly the requested capacity |
| MemBuffer.MemBuff.EnsureCapacity | src/utils/membuff.cpp:71-88 | the capacity grows as GrownCapacity says, the written bytes are kept, and the capacity is returned as an int |
| MemBuffer.MemBuff.Write | src/utils/membuff.cpp:99-107 | with a non-NULL source and a non-zero length, the first len bytes are appended and the capacity leaves room for a terminator; otherwise nothing changes |
| MemBuffer.MemBuff.Read | src/utils/membuff.cpp:118-121 | reading is not implemented: it returns 0 and changes nothing |
| RefCounting.ReleasedReportsZero | trunk/src/utils/refcount.h:50-61 | DecRef reports zero exactly when the count does not exceed delta, the count is then 0, and it never goes below zero |
| RefCounting.IncrementThenRelease | trunk/src/utils/refcount.h:43-61 | a DecRef undoes an IncRef of the same delta on a live count that does not wrap |
| RefCounting.IncrementWraps | trunk/src/utils/refcount.h:43-46 | IncRef is unsigned addition: the largest count plus one is 0 |
| RefCounting.RefCountable.constructor | trunk/src/utils/refcount.h:37 | a new countable object has count 0 |
| RefCounting.RefCountable.IncRef | trunk/src/utils/refcount.h:43-46 | the count grows by delta, modulo 2^32 |
| RefCounting.RefCountable.DecRef | trunk/src/utils/refcount.h:50-61 | the count drops by delta, or to 0 with true returned when it does not exceed delta |
| RefCounting.RefCount.constructor | trunk/src/utils/refcount.h:86 | a new holder holds the data with count 1 |
| RefCounting.RefCount.IncRef | trunk/src/utils/refcount.h:92 | the count grows by delta, modulo 2^32, and the holder stays alive |
| RefCounting.RefCount.DecRef | trunk/src/utils/refcount.h:96-107 | as RefCountable.DecRef, and the holder is not deleted by DecRef itself |
| RefCounting.SmartPtr.Null | trunk/src/utils/refcount.h:138 | the default pointer is NULL and const |
| RefCounting.SmartPtr.OfConst | trunk/src/utils/refcount.h:141 | a pointer to const data gets a new holder with count 1 that it never counts |
| RefCounting.SmartPtr.Of | trunk/src/utils/refcount.h:144-146 | a new holder with count 1; the pointer is const only when asked and the data is not NULL |
| RefCounting.SmartPtr.Copy | trunk/src/utils/refcount.h:149 | the copy shares the other's holder and constness, and counts one more unit when not const |
| RefCounting.SmartPtr.Reset | trunk/src/utils/refcount.h:161 | back to a NULL const pointer, releasing nothing |
| RefCounting.SmartPtr.Release | trunk/src/utils/refcount.h:152-158 | a counted pointer gives back one unit and its holder is deleted when that was the last; a const or NULL pointer touches nothing |
| RefCounting.SmartPtr.Acquire | trunk/src/utils/refcount.h:186-190 | the pointer takes the other's holder and constness, and counts one unit when not const |
| RefCounting.SmartPtr.Assign | trunk/src/utils/refcount.h:164-169 | self-assignment changes nothing; otherwise the old holder is released and the other's holder is shared and counted |
| RefCounting.SmartPtr.Data | trunk/src/utils/refcount.h:172-178 | Data() is NULL exactly when operator! is true |
| RefCounting.OwnersUpdate | trunk/src/utils/refcount.h:182-191 | repointing one pointer moves one unit between holders' owner counts |
| RefCounting.OwnersAppend | trunk/src/utils/refcount.h:141-149 | a new pointer adds one owner to its own holder only |
| RefCounting.OwnersAbsent | trunk/src/utils/refcount.h:133-199 | a holder no pointer refers to has no owners |
| RefCounting.OwnerCounted | trunk/src/utils/refcount.h:133-199 | a counted pointer is among its holder's owners |
| RefCounting.NewPointerConsistent | trunk/src/utils/refcount.h:141-146 | making a new pointer keeps every count equal to its number of counted pointers |
| RefCounting.HolderAfter | trunk/src/utils/refcount.h:182-191 | releasing pointer i and pointing it elsewhere changes a holder only when it was or becomes that pointer's holder |
| RefCounting.CountedHolderAfter | trunk/src/utils/refcount.h:182-191 | a counted holder's count still matches its owners, and it is deleted exactly at count 0, after a pointer is released and repointed |
| RefCounting.ReleaseThenSetHolder | trunk/src/utils/refcount.h:182-191 | the effect of releasing and repointing one pointer on one holder: const holders are untouched, counted ones stay consistent |
| RefCounting.ReleaseThenSet | trunk/src/utils/refcount.h:182-191 | releasing a pointer and pointing it at a held holder, or at nothing, keeps the pool consistent |
| RefCounting.AssignConsistent | trunk/src/utils/refcount.h:164-169 | assignment keeps the pool consistent and leaves the target pointing where the source points |
| RefCounting.DropConsistent | trunk/src/utils/refcount.h:152-158 | destroying a pointer keeps the pool consistent |
| RefCounting.LastOwnerDeletes | trunk/src/utils/refcount.h:152-158 | destroying a counted pointer deletes its holder exactly when it was the holder's last counted pointer |
| Jobs.Nulls | trunk/src/eds/job.cpp:42-45 | n slots, every one NULL |
| Jobs.ExtendedShape | trunk/src/eds/job.cpp:58-60 | after the push_back loop slot id exists, every existing slot is kept, and only NULLs are added |
| Jobs.ExtendedIdempotent | trunk/src/eds/job.cpp:58-60 | extending twice to the same stage is the same as once |
| Jobs.ExtendedValues | trunk/src/eds/job.cpp:55-62 | extending changes no stage's value, and slot id then holds what GetStageData reads: the slot's value, NULL beyond the end |
| Jobs.SetThenGet | trunk/src/eds/job.cpp:55-78 | after SetStageData(id, data), stage id reads data and every other stage reads what it did before |
| Jobs.ReplayReadsLastSet | trunk/src/eds/job.cpp:39-78 | after any sequence of sets on a new job, every stage reads the last data set for it, and NULL if none was |
| Jobs.Job.constructor | trunk/src/eds/job.cpp:39-46 | a new job has five NULL slots |
| Jobs.Job.Extend | trunk/src/eds/job.cpp:58-60 | the loop leaves the slots extended with NULLs up to id |
| Jobs.Job.GetStageData | trunk/src/eds/job.cpp:55-62 | returns the stage's slot value (NULL beyond the end) and leaves the slots extended to it |
| Jobs.Job.SetStageData | trunk/src/eds/job.cpp:71-78 | the slots extended to id, with slot id overwritten by data |
| Listeners.WithoutMembers | tags/HALLEY_00_03_01/src/utils/listeners.h:103 | list::remove keeps exactly the other listeners |
| Listeners.WithoutAbsent | tags/HALLEY_00_03_01/src/utils/listeners.h:99-104 | removing an absent listener leaves the list as it was |
| Listeners.WithoutDistinct | tags/HALLEY_00_03_01/src/utils/listeners.h:99-104 | removing from a list without repeats keeps it without repeats and removes one listener when present |
| Listeners.AddedDistinct | tags/HALLEY_00_03_01/src/utils/listeners.h:84-89 | adding keeps the list free of repeats, adds the listener, and grows it by one exactly when the listener was absent |
| Listeners.ReplayMatchesLive | tags/HALLEY_00_03_01/src/utils/listeners.h:84-117 | after any adds and removes the list has no repeats, holds exactly the listeners added and not removed since, and Count is their number |
| Listeners.ListenerManager.constructor | tags/HALLEY_00_03_01/src/utils/listeners.h:55 | a new manager has no listeners |
| Listeners.ListenerManager.Find | tags/HALLEY_00_03_01/src/utils/listeners.h:86 | std::find reports whether the listener is in the list |
| Listeners.ListenerManager.AddListener | tags/HALLEY_00_03_01/src/utils/listeners.h:84-89 | the listener is appended unless already present |
| Listeners.ListenerManager.RemoveListener | tags/HALLEY_00_03_01/src/utils/listeners.h:99-104 | every element equal to the listener is dropped, the rest kept in order |
| Listeners.ListenerManager.Count | tags/HALLEY_00_03_01/src/utils/listeners.h:114-117 | the number of listeners |
| Server.Marked | trunk/src/eds/server.cpp:542-558 | the waiting connections with a non-zero (or zero) count, in order: only those, and all of those |
| Server.MarkedLast | trunk/src/eds/server.cpp:544-557 | each waiting connection is either kept or deleted, never both |
| Server.MarkedSplits | trunk/src/eds/server.cpp:542-558 | the kept and the deleted connections together are exactly the waiting ones |
| Server.MarkedDistinct | trunk/src/eds/server.cpp:542-558 | the kept list, like the waiting list, has no repeats |
| Server.EvServer.constructor | trunk/src/eds/server.cpp:50-56 | a new server has no stages, no live, waiting or deleted connections |
| Server.EvServer.SetStage | trunk/src/eds/server.cpp:484-496 | the stage is registered under the name, replacing any stage of that name; nothing else changes |
| Server.EvServer.GetStage | trunk/src/eds/server.cpp:505-516 | the stage registered under the name, or NULL |
| Server.EvServer.ConnectionComplete | trunk/src/eds/server.cpp:525-532 | a live connection leaves the live set and is deleted; any other is left alone; the server stays valid |
| Server.EvServer.HangUp | trunk/src/eds/server.cpp:379-405 | the connection is marked closed, leaves the live set and has its socket closed; it is deleted at once when unreferenced, otherwise appended to the waiting list |
| Server.EvServer.CloseMarkedConnections | trunk/src/eds/server.cpp:542-558 | the unreferenced waiting connections are deleted in order and the referenced ones kept in order; no connection is deleted twice |
| Server.Sweep | trunk/src/eds/server.cpp:544-557 | the loop splits the waiting connections into the referenced ones and the others, in order |
| Server.SetStageThenGet | trunk/src/eds/server.cpp:484-516 | after SetStage(name, s), GetStage(name) is s and every other name reads as before |
| Server.Connection.constructor | trunk/src/eds/connection.cpp:41-53 | a new connection starts in the reading state, not closed, with its socket open |
| Bayeux.RouteOf | trunk/src/eds/http/bayeux/bayeuxmodule.cpp:100-128 | a channel goes to the generic meta handler exactly when it is none of the five meta names and starts with "/meta/" (strncmp over 6), and to publish exactly when it is none of them and does not |
| Bayeux.MetaChannelsArePrefixed | trunk/src/eds/http/bayeux/bayeuxmodule.cpp:100-128 | for a NUL-free channel, every channel starting with "/meta/" goes to a meta handler and every other channel is a publish |
| Bayeux.Handle | trunk/src/eds/http/bayeux/bayeuxmodule.cpp:131-164 | every handler is a stub that accepts the message and leaves the output alone |
| Bayeux.ProcessMessage | trunk/src/eds/http/bayeux/bayeuxmodule.cpp:88-129 | false with "Channel name missing" as the output exactly when the message has no channel; otherwise true with the output made a list, an existing list kept |
| Bayeux.AllRoutedLeaveList | trunk/src/eds/http/bayeux/bayeuxmodule.cpp:51-58 | a list whose messages all name a channel leaves an empty list as the output, or the output untouched when the list is empty |
| Bayeux.FirstFailureStops | trunk/src/eds/http/bayeux/bayeuxmodule.cpp:53-57 | the first message without a channel stops the loop: later messages are never looked at and the output is the error text |
| Bayeux.VerdictCases | trunk/src/eds/http/bayeux/bayeuxmodule.cpp:46-85 | a message or a list of messages that all name a channel is accepted; the first message without a channel makes its error text the reply; an empty list and a body of another type end in a dereference of the empty output |
| Bayeux.ListErrorReply | trunk/src/eds/http/bayeux/bayeuxmodule.cpp:51-84 | a list whose k-th message is the first without a channel is answered with the error text |
| Bayeux.BayeuxModule.ProcessItems | trunk/src/eds/http/bayeux/bayeuxmodule.cpp:53-57 | the loop processes the messages in order and stops at the first that fails |
| Bayeux.BayeuxModule.ProcessInput | trunk/src/eds/http/bayeux/bayeuxmodule.cpp:31-85 | the run crashes exactly on a NULL body, a NULL list element, a body of another type or an empty output; an error text is answered with status 500, its length, text/text and the text, then CONTENT_FINISHED; an accepted body sends nothing |
| Bayeux.BayeuxModule.Collect | trunk/src/eds/http/bayeux/bayeuxmodule.cpp:51-62 | a list body goes through the loop and an object body through one ProcessMessage |
| Bayeux.BayeuxModule.Reject | trunk/src/eds/http/bayeux/bayeuxmodule.cpp:63-69 | a body of another type gets status 500 "Invalid bayeux message." and a CONTENT_FINISHED part |
| Bayeux.BayeuxModule.Respond | trunk/src/eds/http/bayeux/bayeuxmodule.cpp:71-84 | a NULL output crashes; a string output is sent back as the error reply; any other output sends nothing and changes nothing |
| Json.TypeOf | trunk/src/json/json.cpp:398-402 | a node reports JNT_LIST exactly when it is a list and JNT_OBJECT exactly when it is an object |
| Json.ValueToBoolReadsBack | trunk/src/json/json.cpp:62-82 | a bool node and the texts "true"/"false" read back as their bool; every other string, and NULL, give the fallback |
| Json.ValueToIntReadsBack | trunk/src/json/json.cpp:96-112 | an int node and the decimal text of an int read back as that int; NULL gives the fallback |
| Json.ListAdd | trunk/src/json/json.cpp:613-621 | the child is appended when index < 0 and inserted before position index otherwise, with every other item kept in order |
| Json.NodeAdd | trunk/src/json/json.cpp:613-621 | only a list takes a child, and the result says whether it did; other nodes are unchanged |
| Json.GetIndex | trunk/src/json/json.cpp:633-636 | a list gives its item at the index; any other node gives the empty pointer |
| Json.Size | trunk/src/json/json.cpp:596-599 | the number of items of a list or entries of an object, and 0 for a scalar |
| Json.IsEmpty | trunk/src/json/json.cpp:582-585 | empty exactly when the size is 0, so a scalar counts as empty |
| Json.Clear | trunk/src/json/json.cpp:567-570 | a container keeps its type and loses its children; a scalar stays as it is |
| Json.NodeSet | trunk/src/json/json.cpp:721-738 | only an object takes a named child; afterwards Get(name) is the child, the name is contained, and every other key reads as before |
| Json.GetName | trunk/src/json/json.cpp:750-758 | a non-object node gives the empty pointer for every name |
| Json.Contains | trunk/src/json/json.cpp:772-777 | true exactly when the node is an object with that key |
| Json.FormatString | trunk/src/json/json.cpp:888-910 | the output is wrapped in double quotes |
| Json.EscapeAllPlain | trunk/src/json/json.cpp:893-908 | a string with no character that needs escaping is copied unchanged |
| Json.EscapeAllAppend | trunk/src/json/json.cpp:893-908 | escaping works character by character: the escape of a concatenation is the concatenation of the escapes |
| Json.Format | trunk/src/json/json.cpp:922-925 | FormatExt without line ends, followed by exactly one line end |
| Json.FormatContainers | trunk/src/json/json.cpp:937-991 | an empty list prints "[  ]" and an empty object "{  }"; list items and object entries (key, ": ", value) are joined by ", " in order |
| JsonReader.Weight | trunk/src/json/tokenizer.cpp:99-185 | a pending look-ahead token is worth at most 2 steps of work |
| JsonReader.LexAdvances | trunk/src/json/tokenizer.cpp:196-313 | RealToken never yields JT_NONE, and every token but the end of input consumes input |
| JsonReader.ExponentDigitsProgress | trunk/src/json/tokenizer.cpp:156-176 | the exponent part clears the look-ahead and never moves back |
| JsonReader.ExponentFixedProgress | trunk/src/json/tokenizer.cpp:155-182 | the end of a number keeps as look-ahead only the token it stands after, and never moves back |
| JsonReader.MantissaProgress | trunk/src/json/tokenizer.cpp:132-182 | a mantissa leaves a look-ahead token only after reading past it |
| JsonReader.NumberProgress | trunk/src/json/tokenizer.cpp:116-182 | a number leaves a look-ahead token only after reading past it |
| JsonReader.NextTokenProgress | trunk/src/json/tokenizer.cpp:99-185 | NextToken never increases the work left, and decreases it unless it returns the end of input |
| JsonReader.TokenizerProgresses | trunk/src/json/tokenizer.cpp:99-313 | the tokenizer on any stream makes that progress, so ReadNode ends on every stream |
| JsonReader.Read | trunk/src/json/json.cpp:1295-1391 | ReadNode never moves the tokenizer back; a node it builds is well formed (no empty list item, no empty member value, keys in order), and a given look-ahead it accepts starts a value |
| JsonReader.SkipComma | trunk/src/json/json.cpp:1348-1353 | stepping over one optional ',' never moves back, and moves forward unless at the end of input |
| JsonReader.ReadMembers | trunk/src/json/json.cpp:1325-1362 | the member loop never moves back and builds only well-formed objects |
| JsonReader.ReadItems | trunk/src/json/json.cpp:1368-1387 | the item loop never moves back and builds only well-formed lists |
| JsonReader.GoodItemsAppend | trunk/src/json/json.cpp:1378 | appending a present, well-formed item keeps the items well formed |
| JsonReader.Build | trunk/src/json/json.cpp:1275-1283 | Build's result, when not empty, is well formed; numbers are lexed with the corrected exponent |
| JsonReader.NoValueIsEmpty | trunk/src/json/json.cpp:1297-1390 | a token that starts no value (null, an identifier, a stray mark) reads as the empty pointer and reads nothing more |
| JsonReader.EmptyItemEmptiesList | trunk/src/json/json.cpp:1372-1376 | inside a list, an item that reads as empty makes the whole list empty |
| JsonReader.KeyNeedsColon | trunk/src/json/json.cpp:1329-1335 | a member name not followed by ':' makes the object empty |
| JsonReader.MembersEnd | trunk/src/json/json.cpp:1325-1362 | the member loop ends with the object only at '}', and with the empty pointer at anything else |
| JsonReader.ListNeedsClose | trunk/src/json/json.cpp:1370-1376 | a list still open at the end of input gives the empty pointer |
| JsonReader.ScanOf | trunk/src/json/tokenizer.cpp:99-185 | the tokenizer's position never passes the end of its input |
| JsonReader.TokenizerStepsLike | trunk/src/json/tokenizer.cpp:99-185 | the tokenizer answers as NextToken does on its input |
| JsonReader.NextOf | trunk/src/json/tokenizer.cpp:99-185 | one NextToken call is one step of the lexer, never moving back and moving forward unless at the end of input |
| JsonReader.NextAfter | trunk/src/json/json.cpp:1348-1353 | the token after an item or member, over one optional ',', as SkipComma says |
| JsonReader.ReadNode | trunk/src/json/json.cpp:1295-1391 | the node built and the tokenizer's new state are exactly Read's |
| JsonReader.ReadObject | trunk/src/json/json.cpp:1319-1363 | the object branch gives what the member loop gives from the token after '{' |
| JsonReader.ReadMember | trunk/src/json/json.cpp:1327-1353 | one member: the name, ':', the value (stored unless empty) and an optional ','; stops the object when ':' is missing; keeps the members well formed |
| JsonReader.ReadMemberValue | trunk/src/json/json.cpp:1337-1353 | the value after ':' is stored under the name unless empty, then an optional ',' is skipped |
| JsonReader.ReadList | trunk/src/json/json.cpp:1364-1388 | the list branch gives what the item loop gives from the token after '[' |
| JsonReader.BuildTree | trunk/src/json/json.cpp:1275-1283 | Build on a fresh tokenizer over the stream gives Build's node; numbers are lexed with the corrected exponent |
| JsonTokenizer.At | trunk/src/json/tokenizer.cpp:61-74 | GetChar's view of the stream: the character as an int, -1 at end of file |
| JsonTokenizer.SpaceEnd | trunk/src/json/tokenizer.cpp:200-203 | the white-space loop stops at the first non-space character, or the end |
| JsonTokenizer.DigitEnd | trunk/src/json/tokenizer.cpp:276-280 | the digit loop stops at the first non-digit, or the end |
| JsonTokenizer.IdentEnd | trunk/src/json/tokenizer.cpp:293-297 | the identifier loop stops at the first character that is not a letter, digit or '_' |
| JsonTokenizer.ScanString | trunk/src/json/tokenizer.cpp:230-272 | a string literal always sets the token text and never reads past the end of the stream |
| JsonTokenizer.LexAt | trunk/src/json/tokenizer.cpp:196-313 | RealToken never moves back and never passes the end |
| JsonTokenizer.LexChar | trunk/src/json/tokenizer.cpp:208-312 | a token that starts with a character consumes at least that character |
| JsonTokenizer.LexEof | trunk/src/json/tokenizer.cpp:198-206 | white space is skipped, and JT_EOF comes exactly when only white space is left, with no text |
| JsonTokenizer.SpaceEndSpans | trunk/src/json/tokenizer.cpp:200-203 | everything the white-space loop passes over is white space |
| JsonTokenizer.SpaceEndUnique | trunk/src/json/tokenizer.cpp:200-203 | the white-space loop stops at the first position that is not white space |
| JsonTokenizer.DigitEndUnique | trunk/src/json/tokenizer.cpp:276-280 | the digit loop stops at the first position that is not a digit |
| JsonTokenizer.IdentEndUnique | trunk/src/json/tokenizer.cpp:293-297 | the identifier loop stops at the first position that is not an identifier character |
| JsonTokenizer.SpaceEndOver | trunk/src/json/tokenizer.cpp:200-203 | after a run of white space the loop stops at the next character |
| JsonTokenizer.LexPunctuation | trunk/src/json/tokenizer.cpp:208-228 | each of , : { } [ ] . - + after any white space is its own token |
| JsonTokenizer.UnescapedShape | trunk/src/json/tokenizer.cpp:252-262 | a backslash keeps itself unless it starts one of the escapes n r f b t v and backslash |
| JsonTokenizer.ScanPlain | trunk/src/json/tokenizer.cpp:235-269 | literal text without delimiter or backslash is taken as it is |
| JsonTokenizer.LexStringLiteral | trunk/src/json/tokenizer.cpp:230-272 | a quoted literal without escapes is a JT_STRING whose text is what lies between the quotes |
| JsonTokenizer.ScanUnterminated | trunk/src/json/tokenizer.cpp:237-241 | a literal whose delimiter never comes again is JT_ERROR, with the text up to the end of the stream |
| JsonTokenizer.ScanOutcome | trunk/src/json/tokenizer.cpp:230-272 | a string literal gives JT_STRING or JT_ERROR, and always sets the token text |
| JsonTokenizer.DigitEndOver | trunk/src/json/tokenizer.cpp:273-285 | the run of digits that starts a token ends at the first non-digit |
| JsonTokenizer.IdentEndOver | trunk/src/json/tokenizer.cpp:286-300 | the run of identifier characters ends at the first other character |
| JsonTokenizer.LexDigits | trunk/src/json/tokenizer.cpp:273-285 | digits after white space are one JT_DIGITS token carrying them as its text |
| JsonTokenizer.LexIdentifier | trunk/src/json/tokenizer.cpp:286-310 | an identifier is JT_TRUE, JT_FALSE or JT_NULL when it is exactly that keyword and JT_IDENT otherwise, with the identifier as text |
| JsonTokenizer.LexStray | trunk/src/json/tokenizer.cpp:312 | a character that starts no token is JT_ERROR on its own |
| JsonTokenizer.NextTokenReturnsLookAhead | trunk/src/json/tokenizer.cpp:101-114 | a kept look-ahead other than JT_DIGITS or JT_MINUS is returned as it is, without reading |
| JsonTokenizer.NextTokenPassesThrough | trunk/src/json/tokenizer.cpp:106-114 | a token other than JT_DIGITS or JT_MINUS passes through NextToken unchanged |
| JsonTokenizer.NextTokenInt | trunk/src/json/tokenizer.cpp:116-182 | an optional '-' and digits followed by a token that starts neither a fraction nor an exponent make JT_INT with the sign and digits as text; that token becomes the look-ahead |
| JsonTokenizer.NextTokenFraction | trunk/src/json/tokenizer.cpp:116-182 | an optional '-', digits, '.' and digits followed by a token that starts no exponent make JT_DOUBLE with the whole literal as text; that token becomes the look-ahead |
| JsonTokenizer.MantissaEnds | trunk/src/json/tokenizer.cpp:136-182 | an integer part followed by a token other than '.' is a mantissa without fraction |
| JsonTokenizer.MantissaFraction | trunk/src/json/tokenizer.cpp:138-153 | an integer part followed by '.' and digits is a mantissa with a fraction |
| JsonTokenizer.IdentHasText | trunk/src/json/tokenizer.cpp:286-310 | a JT_IDENT token always has a text |
| JsonTokenizer.DigitsAt | trunk/src/json/tokenizer.cpp:273-285 | digits right where scanning stands are one JT_DIGITS token |
| JsonTokenizer.DotAt | trunk/src/json/tokenizer.cpp:222-223 | a '.' right where scanning stands is JT_DOT |
| JsonTokenizer.IdentAt | trunk/src/json/tokenizer.cpp:286-310 | an identifier right where scanning stands is one token, with its text |
| JsonTokenizer.MinusNeedsDigits | trunk/src/json/tokenizer.cpp:120-130 | '-' not followed by digits is JT_ERROR |
| JsonTokenizer.DotNeedsDigits | trunk/src/json/tokenizer.cpp:138-147 | a '.' after the integer part not followed by digits is JT_ERROR |
| JsonTokenizer.ExponentNeedsDigits | trunk/src/json/tokenizer.cpp:156-171 | an 'e' or 'E' after a mantissa, with an optional sign, needs digits after it, or it is JT_ERROR |
| JsonTokenizer.SignedExponent | trunk/src/json/tokenizer.cpp:156-176 | a signed exponent makes JT_DOUBLE whose text is mantissa, 'e', sign and digits |
| JsonTokenizer.LookAheadKeepsDigits | trunk/src/json/tokenizer.cpp:177-182 | the number's text replaces the token text, so the text of the token that ended the number is lost: "1 2" gives JT_INT "1" with JT_DIGITS as look-ahead |
| JsonTokenizer.LexOneSpaceTwo | trunk/src/json/tokenizer.cpp:196-285 | the two lexemes of "1 2" are JT_DIGITS "1" and JT_DIGITS "2" |
| JsonTokenizer.LookAheadLosesText | trunk/src/json/tokenizer.cpp:99-182 | from that look-ahead NextToken gives JT_INT "1" again, with end of file as the new look-ahead |
| JsonTokenizer.UnsignedExponentAsWritten | trunk/src/json/tokenizer.cpp:155-182 | as written, "e5" after a mantissa is not an exponent: the number ends as JT_INT and "e5" is the look-ahead |
| JsonTokenizer.UnsignedExponentFixed | trunk/src/json/tokenizer.cpp:155-176 | corrected, an identifier 'e' or 'E' followed only by digits completes the number as JT_DOUBLE |
| JsonTokenizer.UnsignedExponentNumber | trunk/src/json/tokenizer.cpp:155-176 | corrected, "1e5" is the JT_DOUBLE "1e5" |
| JsonTokenizer.ExponentAfterOne | trunk/src/json/tokenizer.cpp:155-176 | with the corrected Mantissa, after the digits "1" of "1e5" the identifier "e5" is taken as the exponent |
| JsonTokenizer.Tokenizer.Cursor | trunk/src/json/tokenizer.cpp:61-88 | the logical read position, with a pushed-back character read again, never passes the end |
| JsonTokenizer.Tokenizer.constructor | trunk/src/json/tokenizer.cpp:324-330 | a new tokenizer is in the state Reset leaves |
| JsonTokenizer.Tokenizer.Reset | trunk/src/json/tokenizer.cpp:324-330 | no stream, no text, no pushed-back character, no look-ahead |
| JsonTokenizer.Tokenizer.Begin | trunk/src/json/tokenizer.cpp:31-36 | Reset, then reading from the start of the stream |
| JsonTokenizer.Tokenizer.GetChar | trunk/src/json/tokenizer.cpp:61-74 | the pushed-back character if any, else the next character of the stream, -1 at end; the position advances by one, not past the end |
| JsonTokenizer.Tokenizer.UngetChar | trunk/src/json/tokenizer.cpp:85-88 | the character just read is read again; -1 pushes back nothing |
| JsonTokenizer.Tokenizer.RealToken | trunk/src/json/tokenizer.cpp:196-313 | the token, its text (or the previous text) and the new position are LexAt's, and the look-ahead is untouched |
| JsonTokenizer.Tokenizer.ReadToken | trunk/src/json/tokenizer.cpp:208-312 | the token that starts with the character just read, as LexChar says |
| JsonTokenizer.Tokenizer.SkipWhiteSpace | trunk/src/json/tokenizer.cpp:198-203 | the first character that is not white space, read, or -1 at the end |
| JsonTokenizer.Tokenizer.ReadRun | trunk/src/json/tokenizer.cpp:273-300 | the run of digits, or of identifier characters, with the character after it pushed back |
| JsonTokenizer.Tokenizer.ReadString | trunk/src/json/tokenizer.cpp:230-272 | the string-literal branch gives ScanString's token, text and position |
| JsonTokenizer.Tokenizer.NextToken | trunk/src/json/tokenizer.cpp:99-185 | token, text, look-ahead and position are NextTokenSpec's (with the corrected exponent) |
| JsonTokenizer.Tokenizer.ReadNumber | trunk/src/json/tokenizer.cpp:116-182 | the number after '-' or digits, as Number says, with the corrected exponent |
| JsonTokenizer.Tokenizer.ReadMantissa | trunk/src/json/tokenizer.cpp:132-153 | the fraction part, as Mantissa says, with the corrected exponent |
| JsonTokenizer.Tokenizer.ReadExponent | trunk/src/json/tokenizer.cpp:155-182 | the exponent part, as the corrected ExponentFixed says |
| JsonTokenizer.Tokenizer.ReadSignedDigits | trunk/src/json/tokenizer.cpp:158-176 | the exponent's sign and digits, as ExponentDigits says |
| Amf.IntGroups | trunk/src/json/json.cpp:1235-1249 | encodeInt's temp array: four groups, the first three 7-bit and the last 7- or 8-bit |
| Amf.MarkGroups | trunk/src/json/json.cpp:1252-1258 | only the non-zero leading groups are written, so at most as many as there are |
| Amf.MarkGroupsRange | trunk/src/json/json.cpp:1252-1258 | each written leading 7-bit group lies in 0x81..0xFF |
| Amf.EncodeIntShape | trunk/src/json/json.cpp:1231-1261 | encodeInt writes one to four bytes, every byte but the last has bit 0x80 set, and 0..127 is the single byte itself |
| Amf.U29 | trunk/src/json/json.cpp:1231-1261 | the 29-bit value an int carries, the int itself when it fits |
| Amf.EncodeU29 | trunk/src/json/json.cpp:1231-1261 | the corrected encoding writes one to four bytes, each but the last with the continuation bit |
| Amf.DecodeU29 | trunk/src/json/json.cpp:1231-1261 | a U29 read takes one to four bytes that are there and gives a 29-bit value |
| Amf.U29RoundTrip | trunk/src/json/json.cpp:1231-1261 | every 29-bit value reads back from its corrected encoding, with its length, whatever follows |
| Amf.EncodeIntLosesZeroGroups | trunk/src/json/json.cpp:1252-1259 | as written, 16384 and 2^21 both come out as 0x81 0x00, which a U29 reader takes for 128 |
| Amf.MiddleGroupOnly | trunk/src/json/json.cpp:1235-1259 | for 2^14 the groups are 0, 1, 0, 0 and only the 1 and the last group are written |
| Amf.TopGroupOnly | trunk/src/json/json.cpp:1235-1259 | for 2^21 the groups are 1, 0, 0, 0 and only the 1 and the last group are written |
| Amf.EncodeInt | trunk/src/json/json.cpp:1231-1261 | the bytes the method writes into the array, and their count, are encodeInt's as written |
| Amf.SplitGroups | trunk/src/json/json.cpp:1233-1249 | the first half of encodeInt fills temp with the four groups, most significant first |
| Amf.AsciiWidth | trunk/src/json/json.cpp:1148-1188 | a 7-bit char counts one byte and is written as itself |
| Amf.HighByteWidth | trunk/src/json/json.cpp:1150-1216 | as written, every other byte counts three in the header (it is sign-extended and then masked) and writes nothing (it is sign-extended past 0x10FFFF) |
| Amf.AsciiAsWritten | trunk/src/json/json.cpp:1125-1219 | on 7-bit text encodeUTF8 is encodeInt(2n+1) followed by the bytes |
| Amf.EncodeIntOfOne | trunk/src/json/json.cpp:1231-1261 | encodeInt(1) is the byte 1, the header the empty string gets |
| Amf.AsciiHeader | trunk/src/json/json.cpp:1143-1218 | a non-empty string is the header encodeInt(2n+1) for its counted length n, then the bytes the second loop writes |
| Amf.AsciiParts | trunk/src/json/json.cpp:1148-1188 | on 7-bit text the counted length is the length and the written bytes are the bytes |
| Amf.Utf8LengthMismatch | trunk/src/json/json.cpp:1148-1216 | as written, the single byte 0xE9 gets a header announcing three payload bytes but none is written |
| Amf.Utf8Of | trunk/src/json/json.cpp:1180-1216 | the UTF-8 of a byte read as an unsigned code point takes one or two bytes |
| Amf.Payload | trunk/src/json/json.cpp:1180-1216 | the corrected payload takes between one and two bytes per char |
| Amf.Utf8HeaderCountsPayload | trunk/src/json/json.cpp:1125-1219 | corrected, the header reads back as 2n+1 where n is the number of payload bytes that follow it, and "" is the single byte 0x01 |
| Amf.AsciiPayload | trunk/src/json/json.cpp:1180-1188 | on 7-bit text the corrected payload is the bytes themselves |
| Amf.EncodeUtf8Method | trunk/src/json/json.cpp:1125-1219 | the two loops over the string write what EncodeUtf8AsWritten describes |
| Amf.CountLength | trunk/src/json/json.cpp:1145-1173 | the first loop computes the counted length |
| Amf.AppendPayload | trunk/src/json/json.cpp:1180-1217 | the second loop appends the written bytes after the header |
| Amf.AmfFormat | trunk/src/json/json.cpp:1017-1084 | every value is written as at least its marker byte; ints and strings go through the corrected encoders EncodeU29 and EncodeUtf8 |
| Amf.AmfNode | trunk/src/json/json.cpp:1029-1083 | every node is written as at least its marker byte; ints and strings go through the corrected encoders EncodeU29 and EncodeUtf8 |
| Amf.AmfMarkers | trunk/src/json/json.cpp:1019-1083 | an empty pointer and a null node are the null marker; bools are the false/true markers; ints, doubles, strings, lists and objects start with their markers |
| Amf.AmfIntReadsBack | trunk/src/json/json.cpp:1037-1041 | with the corrected encoder, an int node in the 29-bit range is the int marker followed by a U29 that reads back as the int |
| Amf.AmfListCount | trunk/src/json/json.cpp:1051-1062 | with the corrected encoder, a list is the array marker, a dense count 2n+1 that reads back, the empty associative part 0x01, and the items in order |
| Amf.ListLayout | trunk/src/json/json.cpp:1051-1062 | a list's bytes are the marker, the count written by the corrected EncodeU29, 0x01 and the items |
| Amf.AmfObjectShape | trunk/src/json/json.cpp:1063-1082 | an object is the array marker, 0x01, its entries in key order and the empty closing name 0x01; an empty object is written as an empty list |
| Amf.LengthPrefix | trunk/src/json/json.cpp:1104-1109 | the length prefix is four bytes |
| Amf.AmfStreamFraming | trunk/src/json/json.cpp:1096-1113 | a stream reader takes the first four bytes as the big-endian length of the rest, which is the AMF body |
| Amf.LengthPrefixValue | trunk/src/json/json.cpp:1102-1109 | the four prefix bytes read back big-endian as the length |

## Left out

- Sockets, epoll, threads and the stage event queues are left out. The server model keeps only the stage registry, the live-connection set and the list of closed connections.
- File and stream I/O is left out:
  - fopen, fgets, stat, opendir/readdir, fread and iostream reads and writes become values.
  - The file module takes the file system as a parameter `fs`, which gives the outcome of stat, readdir and fread for a path.
  - The MIME table takes the lines of mime.types as a parameter. The split of long lines into 1023-character fgets chunks is not modelled.
  - Output streams are the strings that would be written.
- Floating point is left out:
  - A JSON double keeps its literal text. `atof` and `%g` printing are not modelled.
  - The AMF formatter takes the encoder of the 8-byte double as a parameter.
  - `SetDoubleHeader` is not modelled.
- The logger calls are left out. They have no effect on the modelled state.
- The mutex of `SLockableListenerManager` is left out. Its operations are the plain list operations.
- `HttpUtils::Unescape` is not part of this model: it is declared but never defined. The request model uses the URL `Unescape` in its place.
- Bayeux.BayeuxModule.ProcessInput takes the parsed request body as a parameter rather than running the JSON builder on it. The module dereferences an empty pointer in three places, and each of those is reported as a crash verdict.
- MemBuffer.MemBuff.Write requires the new length plus one to stay below 2^32. The unsigned wrap-around of the source's length arithmetic at 4 GiB is not modelled.
- MemBuffer.MemBuff.EnsureCapacity requires the requested capacity to stay below 2^32, for the same reason.
- Server.EvServer.HangUp requires the connection to be live. The event loop only hangs up connections it is watching.
- Server.Connection.constructor takes the starting reference count as a parameter. The rest of SConnection's state (streams, buffers, creation time) is I/O.
- Jobs.Job.GetStageData takes the stage id as a `nat`. A negative id, which indexes before the vector in the source, is not modelled.
- Jobs.Job.SetStageData has the same `nat` stage id.
- RefCounting: the count pools that CRefCount objects could be drawn from are not modelled. Each holder is its own object.
- ReaderStage.ReaderState.ProcessBytes does not model a CR as the last byte of the buffer. There the source steps its pointer past the end of the buffer, which is undefined behaviour; the model stops at the end.
- Headers.HeaderTable.RemoveHeader returns the removed value. The source reads it through an iterator after erasing it, which is undefined behaviour.
- Headers.HeaderTable.constructor starts with the close flag false. The source's constructor leaves that flag uninitialised.
- HttpModule.ModuleData.NextBodyPart keeps parts in a sequence sorted by index. When two queued parts have the same index, the order in which the priority queue releases them is not modelled.
- TransferModule: the source's `lastBPSent` is modelled as the handler's send counter, because SendBodyPartToModule stamps every part with that counter again.
- ReaderStage: the chunk-size path, which asserts in a debug build (readerstage.cpp:294), is modelled as a build without assertions runs it. The chunk is taken to be empty.
- FileModule.FileModule.ProcessInput sends only CONTENT_FINISHED after a 404 text. The source also sends a NULL part there, which the next module ignores.
- FileModule: the `showIndexes` flag is not modelled. No code reads it.
- UrlRouter.Matches: the regex matcher has no implementation in the source and matches nothing. The model keeps it that way.
- The members below run the corrected definitions of the Findings table where the source runs its code as written. The as-written definitions and the lemmas that exhibit each discrepancy sit beside them. One line per member:
- Headers.HeaderTable.SetHeader stores the joined value on append, through the corrected SetEntry. The source keeps the old value (headers.cpp:155-160), as Headers.SetEntryAsWritten does.
- ReaderStage.ReaderState.ProcessBytes continues each body round after the bytes already consumed. The source restarts from the unmoved pointer and appends the same bytes again (readerstage.cpp:209-219), as ReaderStageProperties.BodyBytesReadTwice shows.
- ReaderStage.ReaderState.AssembleRequest is built on the corrected ProcessBytes. For Content-Length 4 and the buffer "ab" it waits for more bytes, where the source returns the body "abab".
- ReaderStage.ReaderState.LineRound continues the run with the corrected body scan, not the source's unmoved pointer.
- ReaderStage.ReaderState.BodyRound continues from the new position (corrected); readerstage.cpp:209-219 continues from the old pointer.
- TransferModule.HandleBodyPart sends a CONTENT_FINISHED part on once, through the corrected TransferStep. The source sends it twice, both numbered n+1 (transfermodule.cpp:69-88), as TransferModule.TransferStepAsWritten does.
- TransferModule.ProcessOutput drains through the corrected HandleBodyPart.
- TransferModule.DrainQueue drains through the corrected HandleBodyPart.
- TransferModule.TransferAllNumbers is a property of the corrected TransferStep. As written, a finishing part goes out twice with the same number.
- TransferModule.SentPartsDrainDownstream holds for the corrected TransferStep only. As written, the next module releases nothing after the second copy of a finishing part.
- UrlRouter.Matches decides a location matcher by the corrected ContainsMatches, so "/a" matches "a" at SUFFIX. As written (urlrouter.cpp:52-54) MIDDLE and SUFFIX match nothing, as UrlRouter.ContainsMatchesAsWritten does.
- UrlRouter.Router.ProcessInput routes MIDDLE and SUFFIX matchers through the corrected matcher.
- FileModule.FileModule.Decide lists a directory with the corrected name filter and links: "js" is listed and a link reads "/p/s/e", where filemodule.cpp:268-271 drops "js" and filemodule.cpp:340 writes "/p/d/s/e".
- FileModule.FileModule.ProcessInput sends the page of the corrected listing, as Decide chooses it.
- FileModule.DirectoryPageListsEntry is stated of the corrected listing. As written, an entry whose name has two characters or fewer, or starts with "..", has no row.
- JsonTokenizer.Tokenizer.NextToken reads "1e5" as the JT_DOUBLE "1e5" through the corrected exponent. tokenizer.cpp:155-182 gives JT_INT "1" and keeps the identifier "e5" as look-ahead, as JsonTokenizer.Exponent does.
- JsonTokenizer.Tokenizer.ReadNumber reaches the corrected ReadExponent.
- JsonTokenizer.Tokenizer.ReadMantissa reaches the corrected ReadExponent.
- JsonTokenizer.Tokenizer.ReadExponent has a branch for an identifier that is an unsigned exponent such as "e5". tokenizer.cpp:155-182 has no such branch.
- JsonTokenizer.ExponentAfterOne states the corrected reading of "1e5".
- JsonReader.Build lexes with the corrected exponent, so "[1e5]" builds a one-item list. The source's reader returns the empty pointer there.
- JsonReader.BuildTree is Build on the corrected tokenizer.
- Amf.AmfFormat writes ints and strings with the corrected EncodeU29 and EncodeUtf8. IntNode 16384 is 0x04 0x81 0x80 0x00, where json.cpp:1037-1041 writes 0x04 0x81 0x00, as Amf.EncodeIntAsWritten does.
- Amf.AmfNode uses the same corrected encoders as AmfFormat.
- Amf.AmfIntReadsBack holds for the corrected encoder only. As written, 16384 reads back as 128.
- Amf.AmfListCount holds for the corrected encoder only. As written, the count of a list of 8192 items does not read back.
- Amf.ListLayout writes the count with the corrected EncodeU29, not encodeInt as written.
- HttpModule.HandlerData.GetModuleData creates a base ModuleData. The source calls the module's virtual CreateModuleData (httpmodule.cpp:180-181); for the content module that builds a ContentModuleData, whose own state is modelled separately.
- HttpModule.HandlerData.ResetModuleData resets only the base fields. The source's virtual Reset (httpmodule.cpp:115-127) also clears the content module's boundary stack; ContentModule.ContentModuleData.Reset models that override on its own.

## Findings

| source | as written | input that shows it | evidently intended | confidence | as-written member | corrected member |
|---|---|---|---|---|---|---|
| trunk/src/json/json.cpp:1252-1259 | encodeInt skips every 7-bit group that is zero, so it writes `0x81 0x00` for both 16384 and 2^21 | 16384 | U29 encoding per section 1.3.1 of the AMF 3 specification, with zero groups kept (16384 is `0x81 0x80 0x00`), so that decoding gives the value back | not executed | Amf.EncodeIntAsWritten, Amf.EncodeIntLosesZeroGroups | Amf.EncodeU29, Amf.U29RoundTrip |
| trunk/src/json/json.cpp:1148-1216 | encodeUTF8 counts the UTF-8 width of each character for the length header but writes only one byte per character, so the header does not match the payload | the one-character string "\xE9" | the Latin-1 character written as its two UTF-8 bytes, with the length header counting them | not executed | Amf.EncodeUtf8AsWritten, Amf.Utf8LengthMismatch | Amf.EncodeUtf8, Amf.Utf8HeaderCountsPayload |
| src/eds/http/headers.cpp:155-160 | SetHeader with append on an existing name builds the joined value but never stores it, so the header keeps its old value | "X: a" then SetHeader("X", "b", true) | the stored value becomes the old value followed by the new one | not executed | Headers.SetEntryAsWritten, Headers.AppendIsNoOp | Headers.SetEntry |
| trunk/src/eds/http/readerstage.cpp:209-219 | the body branch sets pStart back to the pointer of the loop, which has not moved, so later rounds append the same body bytes again | Content-Length 4 and the buffer "ab" give the body "abab" | each round continues after the body bytes already consumed; "ab" leaves a body of 2 bytes still waiting for 2 more | not executed | ReaderStageProperties.BodyBytesReadTwice | ReaderStage.ReaderState.ProcessBytes, ReaderStage.FixedBodyAt |
| trunk/src/json/tokenizer.cpp:155-182 | RealToken reads "e5" as one identifier, but NextToken accepts only the identifier "e" or "E" as an exponent | "1e5" | a number with an unsigned exponent, as section 6 of RFC 8259 allows | not executed | JsonTokenizer.Exponent, JsonTokenizer.UnsignedExponentAsWritten | JsonTokenizer.ExponentFixed, JsonTokenizer.UnsignedExponentFixed, JsonTokenizer.UnsignedExponentNumber |
| src/eds/http/urlrouter.cpp:52-54 | the location tests OR the flag with a non-zero constant and compare the result with zero, and the suffix test looks for the match before the start of the resource, so the MIDDLE and SUFFIX matchers match no resource | "/a" with the pattern "a" at SUFFIX | SUFFIX matches a resource that ends in the pattern; MIDDLE matches one that holds the pattern anywhere | not executed | UrlRouter.ContainsMatchesAsWritten, UrlRouter.MiddleAndSuffixNeverMatchAsWritten, UrlRouter.ContainsCounterexamples | UrlRouter.ContainsMatches, UrlRouter.ContainsMatchesLocates |
| src/eds/http/filemodule.cpp:268-271 | the directory-name filter drops every name of length 2 or less, not just "." and ".." | the entry "js" | only "." and ".." are left out of a listing | not executed | FileModule.KeepAsWritten, FileModule.KeepAsWrittenDropsTwoLetterName | DirUtils.FilterDotAndDotDot, FileModule.DirectoryEntriesKeep |
| src/eds/http/filemodule.cpp:340 | a listing's links start with the document root as well as the URL prefix, so they do not resolve back to the entry | prefix "/p/", docroot "/d/", directory "s", entry "e" give "/p/d/s/e" | the link is the URL prefix, the path inside the docroot and the entry name, which ParsePath maps back to the entry's file | not executed | FileModule.Href, FileModule.HrefAsWrittenMisses | FileModule.ListingHref, FileModule.ListingLinkResolves |
| src/eds/http/transfermodule.cpp:69-88 | a finishing part is sent on twice, once in its branch and again after the branches, and the second copy is never released downstream | any CONTENT_FINISHED part | each part is passed on once | not executed | TransferModule.TransferStepAsWritten, TransferModule.FinishSentTwiceAsWritten | TransferModule.TransferStep, TransferModule.FinishSentOnce |
| src/utils/urlutils.cpp:114-118 | after a bare LF, ReadTillCrLf also takes the next character off the stream | "a\nbc" leaves "c" | the line ends at the LF and the next line starts right after it | not executed | UrlUtils.ReadTillCrLf, UrlUtils.ReadTillCrLfSwallowsAfterLf | UrlUtils.ReadLineCorrected, UrlUtils.ReadLineCorrectedKeepsNextLine |
