# Ottergate, modelled and verified in Dafny

Ottergate is an egress gateway for sandboxes: a DNS server with a response cache and a forwarder, an
HTTP and a TLS proxy, an outbound firewall and a log streamer.  This project models its protocol
engines and proves properties of them over all inputs and all runs.  `dafny verify dfyconfig.toml` checks the whole project.

| files | what they model |
|---|---|
| `Bytes`, `Names`, `Wire`, `WireFormat` | octets, dotted names, the name reader and the growing write buffer |
| `Questions`, `Response`, `Config`, `Answers`, `Records`, `Messages`, `AnswerRoundTrip`, `AnswerCount`, `ManyAnswers` | packet builder, record encoders, packet readers, and that they undo each other |
| `Ttl`, `BuiltTtl`, `MessageTtl`, `TtlWalk`, `Cache`, `CacheKey`, `Resolver`, `Replies`, `ManyReplies` | TTL patching, the LRU cache, its keys, the resolver behind it and what it replies |
| `CaseRewrite`, `ForwardedQuery`, `SteadyReading`, `Edns`, `RestoreId`, `Forwarding`, `ForwardingRuns`, `ForwardingTimers` | query rewriting and the table of pending UDP queries |
| `Dnssec`, `SignedRead`, `CanonicalForm`, `KeyTag` | the data a signature covers, and the key tag |
| `RateLimit`, `RateBound`, `Sweeps`, `Circuit`, `LogLines` | rate limiter, circuit breaker, log line reassembly |
| `Sni`, `Hosts`, `Firewall` | ClientHello parser, host lookup used three ways, rule engine |

How the model relates to the program:

- Go strings and byte slices are sequences of octets.  Fixed-width integers are bounded types;
  wrap-around and truncation are written out (`%`) where they can occur, as in the answer count.
- State that the program updates in place is a class whose methods refine functions on values; the
  properties are proved about those functions.  Each locked section is one step, and runs are
  arbitrary interleavings of steps.
- Time is an integer passed to each step.  Random octets, the outcome of the signature check and of
  the address check, and whether a timer was stopped before its callback started are inputs, so the
  results hold for all of them.  SHA-256 in the cache key is a parameter assumed to be injective.
- Case folding is ASCII only.

Where an expected law does not hold of the code as it is, the model keeps the code and states when
it holds, as an if-and-only-if:

- Putting the client's ID back can change a question name, because a compression pointer may target
  the ID (`RestoreId.IdChangeKeepsNames`, fails in `ForwardingRuns.RestoredIdReadAsName`).
- Case randomisation can lead the reader of a query astray, because a name may be read from inside a
  label (`SteadyReading.SteadyExact`, fails in `SteadyReading.RecasedPointerShows`).
- A timer callback that runs after its entry was answered can take another query's entry, since it
  looks the entry up by ID alone (`ForwardingTimers.TimeoutsAnswerOwnQuery`, fails in
  `ForwardingTimers.LateTimerRun`).
- The answer count wraps at 65536, which takes several questions (`BuiltTtl.RewriteBuiltExact`, fails
  in `AnswerCount.CountWraps`).
- The signed data depends on the outcome of an unstable sort when records with equal data differ in
  class (`CanonicalForm.SignedDataDetermined`, fails in `CanonicalForm.TwoClassesOpen`).
- A late completion of an older call ends the breaker's trial (`Circuit.TrialDecides`, fails in
  `Circuit.OlderCallDecides`).
- The rate limit binds only while there are no more addresses than buckets (`RateBound.BoundExact`,
  fails in `RateBound.ManyOverrun`), and the table keeps to its limit only without the empty address
  (`RateBound.TableFitsExact`, fails in `RateBound.Overflow`).
- A log line that outgrows the cap between frames is sent on without its beginning
  (`LogLines.FramingIndependence`, fails in `LogLines.LongLineLost`).

## Model

| member | source | states |
|---|---|---|
| Bytes.NetworkOrder | pkg/dns/wire.go:26-56 | Words and double words are written most significant octet first |
| Wire.DecodeName | pkg/dns/wire.go:113-171 | On every buffer, offset and jump budget the reader terminates, never moves the offset back, never passes the end when started inside, and yields only labels of 1 to 63 octets |
| Wire.ReaderDecompresses | pkg/dns/wire.go:113-171 | Where the message spells a name (section 4.1.4 of RFC 1035, defined independently as a chain of labels and pointers), the reader returns exactly that name if the chain has at most the allowed pointers, and never more than a prefix of it otherwise |
| Wire.RootedReadSpells | pkg/dns/wire.go:113-171 | Conversely, every read that ends at a root octet is such a chain, with no more pointers than allowed |
| Wire.ReaderStops | pkg/dns/wire.go:113-171 | On every buffer the reader goes on until it is stuck - at the end, a root octet, a length beyond 63 or beyond the end, half a pointer, or one pointer too many - and returns the labels on its way |
| Wire.ReaderCursor | pkg/dns/wire.go:113-171 | Without a pointer the cursor ends up behind the octet that ended the name, with pointers behind the first of them |
| Wire.NameRoundTrip | pkg/dns/wire.go:58-68 | A written name is read back label for label, with the cursor behind it, wherever in a buffer it stands |
| Wire.PointerRoundTrip | pkg/dns/wire.go:133-151 | A compression pointer to a written name reads as that name and takes two octets |
| Wire.NameLength | pkg/dns/wire.go:58-68 | A name takes two octets more on the wire than its dotted form has |
| Wire.PointerMask | pkg/dns/wire.go:133-144 | The bit masks of the readers are the range test and the subtraction used in the model |
| WireFormat.DnsWireFormat.constructor | pkg/dns/wire.go:16-24 | A writer over a fresh buffer of 4096 octets |
| WireFormat.DnsWireFormat.Over | pkg/dns/wire.go:16-24 | A reader over given octets, at offset 0 |
| WireFormat.DnsWireFormat.Grow | pkg/dns/wire.go:70-78 | Growing keeps everything written and makes room for the requested octets |
| WireFormat.DnsWireFormat.WriteBytes | pkg/dns/wire.go:42-48 | Appends exactly these octets, growing the buffer when needed |
| WireFormat.DnsWireFormat.WriteUint8 | pkg/dns/wire.go:34-40 | Appends one octet |
| WireFormat.DnsWireFormat.WriteUint16 | pkg/dns/wire.go:26-32 | Appends the big-endian word |
| WireFormat.DnsWireFormat.WriteUint32 | pkg/dns/wire.go:50-56 | Appends the big-endian double word |
| WireFormat.DnsWireFormat.WriteDomainName | pkg/dns/wire.go:58-68 | Appends the length-prefixed non-empty labels and a root octet |
| WireFormat.DnsWireFormat.PutUint16 | pkg/dns/server.go:248-248 | Patches two octets of what was written and changes nothing else |
| WireFormat.DnsWireFormat.ReadUint16 | pkg/dns/wire.go:80-89 | Reads a word, or yields 0 and moves to the end |
| WireFormat.DnsWireFormat.ReadUint32 | pkg/dns/wire.go:102-111 | Reads a double word, or yields 0 and moves to the end |
| WireFormat.DnsWireFormat.ReadDomainName | pkg/dns/wire.go:113-171 | The loop over offset, jump and label variables computes the recursive reader, and leaves the caller's offset where that says |
| WireFormat.DnsWireFormat.Finish | pkg/dns/wire.go:173-175 | Returns what was written |
| Questions.ParseQuestionAt | pkg/dns/wire.go:256-277 | One question, or none when its fixed part passes the end or its class is neither IN nor ANY |
| Questions.ExtractQuestions | pkg/dns/wire.go:279-297 | All questions the count announces, up to the first that does not parse |
| Questions.SectionRead | pkg/dns/wire.go:256-297 | Reading undoes encoding: a question section written at any place in a buffer is extracted as the same names and types, in order |
| Questions.SectionUpToClass | pkg/dns/wire.go:256-297 | Of questions of any class, those before the first that is neither IN nor ANY are extracted, and no others |
| Questions.ExtractedNamesFit | pkg/dns/wire.go:113-171 | Every name that comes out of the reader, from any octets, has labels that the writer can encode |
| Names.LabelsJoin | pkg/dns/wire.go:58-68 | Non-empty labels without dots survive joining to a dotted name and splitting it |
| Names.RejoinedLabelsFit | pkg/dns/wire.go:113-171 | Labels that contain dots are cut further when written again, and still fit |
| Names.NormaliseKeepsLabels | pkg/dns/wire.go:58-68 | Dropping empty labels does not change what is written, and doing it again changes nothing |
| Response.ResponseFlags | pkg/dns/server.go:201-201 | Every response is marked as a response and as authoritative, keeps opcode and other flags, and carries the code if and only if the request has no other code bit set |
| Response.PointerWordMask | pkg/dns/server.go:237-243 | The pointer word of an answer is the tag plus the lower 14 bits of the offset |
| Response.WriteResponseHeader | pkg/dns/server.go:203-210 | Identifier, flags, question count and three zero counts |
| Response.WriteNoCounts | pkg/dns/server.go:207-210 | Three zero counts behind the question count |
| Response.WriteQuestion | pkg/dns/server.go:221-223 | One question, with class IN |
| Response.WriteQuestions | pkg/dns/server.go:218-224 | Writes the question section and returns where each question starts |
| Response.WriteAnswers | pkg/dns/server.go:226-246 | Writes every usable answer with its owner pointer and returns their number modulo 65536 |
| Response.BuildResponsePacket | pkg/dns/server.go:198-250 | The packet is header, questions and answers with all counts in place |
| Response.BuiltQuestions | pkg/dns/server.go:198-250 | Extracting the questions of a built packet gives the questions it was built from, normalised |
| Response.GenerateErrorResponse | pkg/dns/server.go:187-196 | The error response to a query, none below 12 octets |
| Response.ErrorResponseRoundTrip | pkg/dns/server.go:187-250 | For every query of at least 12 octets, however malformed: the error response has its ID and its flags with the response bits and the code added, and its extracted questions are the extracted questions of the query - same number, same types, names with empty labels dropped - and nothing else |
| Config.ValidHostnameFits | pkg/config/validation.go:25-39 | A validated host name is in normal form and takes at most 255 octets on the wire (section 2.3.4 of RFC 1035) |
| Config.ValidHostnames | pkg/config/validation.go:25-39 | Which names are accepted, label by label: at most 16 valid labels and 253 octets |
| Config.Configurable | pkg/config/validation.go:75-136 | Every address, every valid name and every word can be configured |
| Answers.EncodeTXT | pkg/dns/wire.go:207-220 | Each text becomes a length octet and at most 255 octets |
| Answers.EncodeName | pkg/dns/wire.go:201-205 | The encoded target name |
| Answers.EncodeMX | pkg/dns/wire.go:222-227 | Preference and exchange |
| Answers.EncodeSRV | pkg/dns/wire.go:235-242 | Priority, weight, port and target |
| Answers.BuildSingleAnswer | pkg/dns/server.go:129-175 | Type, class, TTL, data length and data of one configured record, without data where the type is unknown or the address unusable |
| Answers.ValidRdataFits | pkg/config/validation.go:75-136 | The data of a validated record never overflows its 16-bit length field |
| Records.SkipQuestionNames | pkg/dns/dnssec.go:130-133 | Skips the announced questions by reading each name and four octets more |
| Records.ParseRecord | pkg/dns/dnssec.go:141-163 | One record, or none when its data passes the end |
| Records.ParseSection | pkg/dns/dnssec.go:135-166 | Up to the announced number of records, ended by the first that does not parse |
| Records.ExtractRecords | pkg/dns/dnssec.go:112-173 | The three record sections behind the questions; an error below 12 octets |
| Records.ParseAddress | pkg/dns/handler.go:429-445 | One answer, with its address if it is an A or AAAA record of the right length |
| Records.ParseAddresses | pkg/dns/handler.go:428-446 | The addresses among the announced answers |
| Records.ParseResolvedIps | pkg/dns/handler.go:408-449 | The addresses of all answers, in order |
| Records.CutRecord | pkg/dns/dnssec.go:141-163 | A record cut off in its fixed part is still read, with zero for what is missing |
| Records.OverlongRecord | pkg/dns/dnssec.go:147-149 | A record whose data would pass the end ends the section |
| Messages.MessageRead | pkg/dns/dnssec.go:112-173 | The readers undo the encoding of any message without compression: every question and every record of all three sections, in order |
| AnswerRoundTrip.AnswersRead | pkg/dns/dnssec.go:112-173 | The answer section of a built packet, read from where it starts, gives the records it was built from |
| AnswerRoundTrip.AddressesRead | pkg/dns/handler.go:408-449 | The address reader gives exactly the A and AAAA addresses among them |
| AnswerRoundTrip.AnswerRoundTrip | pkg/dns/server.go:129-250 | A packet built for one question from validated records is read back by both readers as exactly those records, in order, each owned by the lower-cased normalised question name through the compression pointer; all of them if and only if there are at most 65535, else as many as the wrapped count says |
| AnswerRoundTrip.TxtRoundTrip | pkg/dns/wire.go:207-220 | Decoding the character strings of a TXT record gives back its texts |
| AnswerRoundTrip.RdataDecodes | pkg/dns/server.go:129-175 | Every field of a validated record can be read back out of its data |
| AnswerCount.HostRoundTrip | pkg/config/validation.go:382-384 | For one question and the at most 64 records a validated configuration has per host, all records are read back |
| AnswerCount.CountWraps | pkg/dns/server.go:226-248 | A query that wraps the count: 1024 questions for a host with 64 such records announce no answer |
| ManyAnswers.ManyQuestionsRead | pkg/dns/server.go:198-250 | For any number of questions within reach of pointers and fewer than 65536 valid records: all records are read back in order, and the answer at index k is owned by question k, or by the last question when there are fewer |
| Ttl.SkipQuestionSection | pkg/dns/cache.go:147-171 | The cache's walker over a name and the fixed part |
| Ttl.SkipQuestions | pkg/dns/cache.go:181-190 | Where the answers start, as the cache finds it |
| Ttl.PatchAnswers | pkg/dns/cache.go:192-208 | Patches the TTL field of every answer the walk reaches |
| Ttl.RewriteResponseTtl | pkg/dns/cache.go:173-211 | The in-place patching loop writes the TTL into exactly the fields the walk meets |
| Ttl.RewriteKeepsShape | pkg/dns/cache.go:173-211 | On every byte string: length and header stay, and the walk finds the same fields again, because it never reads what it wrote |
| Ttl.RewriteTwice | pkg/dns/cache.go:173-211 | On every byte string: rewriting with one TTL and then another equals rewriting with the other alone |
| BuiltTtl.WalkersAgree | pkg/dns/cache.go:147-171 | Where the message spells a name within the hop limit, the skipping walker and the decoding reader stop at the same octet |
| BuiltTtl.RewriteBuilt | pkg/dns/cache.go:173-211 | Rewriting the TTLs of a built packet is building it with the new TTL, for all answers the 16-bit count can say |
| BuiltTtl.RewriteBuiltExact | pkg/dns/cache.go:173-211 | Rewriting to another TTL is building with it if and only if there are at most 65535 answers |
| MessageTtl.RewriteMessage | pkg/dns/cache.go:173-211 | On every message without compression, rewriting sets the TTL of all answers and of no authority or additional record |
| TtlWalk.StartExactly | pkg/dns/cache.go:181-190 | The answers are looked for behind all questions, or behind the last before one that has no head |
| TtlWalk.FieldsExactly | pkg/dns/cache.go:192-208 | The patched fields are exactly the TTL fields of the announced answers that can be reached |
| TtlWalk.RewriteExactly | pkg/dns/cache.go:173-211 | On every byte string, octet by octet: the octets of those TTL fields become those of the new TTL, and no other changes |
| Cache.Seconds | pkg/dns/cache.go:70-74 | Whole remaining seconds, but never 0 |
| Cache.GetAfterPut | pkg/dns/cache.go:48-117 | Whichever branch stored a response, a later lookup returns that response with the remaining lifetime as TTL, or nothing once the lifetime is over |
| Cache.LookupFrame | pkg/dns/cache.go:48-79 | A lookup changes no entry, except that it drops the one it was for if that has expired |
| Cache.StoreFrame | pkg/dns/cache.go:81-117 | A store changes no other entry it keeps, and stores nothing without a lifetime or a header |
| Cache.DnsCache.constructor | pkg/dns/cache.go:27-36 | An empty cache, of 1024 entries where the size is not positive |
| Cache.DnsCache.Lookup | pkg/dns/cache.go:48-79 | Refines the lookup on map and recency list, and keeps the two in step |
| Cache.DnsCache.Store | pkg/dns/cache.go:81-117 | Refines the store; the eviction loop terminates because map and list are in step |
| Cache.DnsCache.TouchKey | pkg/dns/cache.go:119-127 | Moves one key to the end of the list |
| Cache.DnsCache.DeleteKey | pkg/dns/cache.go:129-137 | Removes the key from map and list |
| Cache.DnsCache.EvictOldest | pkg/dns/cache.go:139-145 | Removes the head of the list from both |
| Cache.Reachable | pkg/dns/cache.go:48-145 | In every reachable state the list has no duplicates and holds exactly the keys of the map, at most `maxSize` of them, ordered by last successful use |
| Cache.EvictsLeastRecentlyUsed | pkg/dns/cache.go:81-117 | Over every history: a store evicts at most one key, only to bring a new key into a full cache, and no other cached key was last used earlier than the evicted one |
| CacheKey.RawKeyInjective | pkg/dns/cache.go:38-46 | The text that is hashed for a key determines the list of names and types exactly, whatever octets the names contain |
| Resolver.BuildAnswers | pkg/dns/server.go:177-185 | The encoded records of the queried type, in configuration order |
| Resolver.CollectAnswers | pkg/dns/server.go:310-327 | Answers of all questions, and whether no question is known |
| Resolver.DevDnsServer.constructor | pkg/dns/server.go:21-28 | A server with its cache in step |
| Resolver.DevDnsServer.AnswerQuestions | pkg/dns/server.go:306-382 | The part of the resolver behind the cache |
| Resolver.DevDnsServer.ResolveQuery | pkg/dns/server.go:256-382 | Refines the resolver with its cache, and keeps the cache in step |
| Resolver.ResolveIsTwoSteps | pkg/dns/server.go:256-382 | A query moves the cache as one lookup and at most one fill do, which other queries may separate |
| Resolver.HistoryCoherent | pkg/dns/server.go:291-379 | In every interleaving each cached entry stems from a fill with the uncached reply to a query with that key |
| Resolver.CacheTransparency | pkg/dns/server.go:291-379 | For a fixed configuration and every interleaving: a hit is what the uncached resolver builds for this query - same length, everything behind the flags equal once TTLs are set to the remaining lifetime - under this query's ID, with the flags of the query that filled the entry; question sets that would be refused, forwarded or left empty are never served |
| Replies.ReplyToQuestion | pkg/dns/server.go:129-250 | The answer to every single question for a configured name with valid records, fewer than 65536 of them (validation admits 64): the reply is read as the configured records of the question's type and no others, each as often as configured, in the order of the configuration, with its data and the question name as owner |
| ManyReplies.ReplyToQuestions | pkg/dns/server.go:306-371 | The same for several questions, fewer than 1024 and within reach of pointers, all for configured names: block after block, question by question |
| Replies.AssignedNumber | pkg/dns/server.go:83-104 | The type of a valid record has the number assigned to it |
| Replies.ResolveMiss | pkg/dns/server.go:256-382 | What is no request gets no reply and leaves no trace; a request is forwarded if and only if its names are neither configured nor forbidden and there is a server to ask, else it gets NOERROR, REFUSED or NXDOMAIN as fits; the reply is stored if and only if it is for parsed questions that are configured or not forbidden |
| Replies.ResolveHit | pkg/dns/server.go:291-304 | After any history, what is sent on a hit is the uncached reply to this very query under its ID, behind the flags and at the remaining TTL |
| CaseRewrite.MixLabelAt | pkg/dns/handler.go:356-369 | Recases the letters of one label in place, by the random octets |
| CaseRewrite.MixNameAt | pkg/dns/handler.go:341-374 | Recases one name in place and returns where the next question starts |
| CaseRewrite.Apply0x20Encoding | pkg/dns/handler.go:330-384 | The mutating walk over the question names computes the case-mixed query and the names it now spells |
| CaseRewrite.MixOctet | pkg/dns/handler.go:330-384 | On any input and any random octets, octet by octet: a letter in the text of a label the walk meets behind the header takes the case its random octet says, and every other octet stays |
| CaseRewrite.MixVariant | pkg/dns/handler.go:330-384 | Hence same length, same header, and nothing changes but the case of ASCII letters at recased positions |
| ForwardedQuery.MixKeepsNames | pkg/dns/handler.go:330-384 | The question names survive case mixing up to ASCII case on every query, malformed ones included, in which no followed pointer has an octet that the randomiser changes |
| ForwardedQuery.UncompressedIsSteady | pkg/dns/handler.go:330-384 | Every message without compression meets that proviso |
| SteadyReading.AlignedIsSteady | pkg/dns/handler.go:341-374 | So does every query that reads no name from inside the text of a label, as ordinary compression never does |
| SteadyReading.SteadyExact | pkg/dns/handler.go:330-384 | The proviso is exact: for all random octets the reader visits the same offsets in every question if and only if no pointer it follows has a recased octet |
| SteadyReading.RecasedPointerShows | pkg/dns/handler.go:341-374 | A query that shows it is needed: under odd random octets its second name, the root, becomes "x" |
| SteadyReading.WalkMeetsReader | pkg/dns/handler.go:341-374 | On a name that the message spells within the hop limit, the walk of the randomiser and the decoding reader stop at the same octet |
| SteadyReading.MixKeepsQuestions | pkg/dns/handler.go:330-384 | A well-formed query, compressed or not, asks as many questions with the same types after randomisation, and with the same names up to case if its pointers are steady |
| Edns.AppendEdns0DoBit | pkg/dns/handler.go:386-406 | Appends an OPT record and sets the additional count, unless there are additional records or no whole header |
| Edns.EdnsMessage | pkg/dns/handler.go:386-406 | On a message without compression: the OPT record with the DO bit becomes the one additional record if there is none, and a message with additional records stays as it is |
| Edns.UpstreamKeepsOwn | pkg/dns/handler.go:386-406 | Any query that announces additional records keeps its length, and behind the ID changes by case only |
| Edns.UpstreamAsksTheSame | pkg/dns/handler.go:730-732 | For every message without compression, with whatever records, and all random octets: what is sent upstream asks the same number of questions with the same types and the same names up to case, carries the same answers and authorities, and as additional records the client's own or else exactly the root-owned OPT record with the DO bit (sections 6.1.2 and 6.1.3 of RFC 6891) |
| RestoreId.IdChangeKeepsNames | pkg/dns/handler.go:832-834 | The question names of a message survive every change of its ID if and only if no pointer followed in its questions targets the ID |
| Forwarding.FreeId | pkg/dns/handler.go:718-728 | With fewer entries than 16-bit IDs there is an unused ID |
| Forwarding.DnsHandler.constructor | pkg/dns/handler.go:57-87 | No pending queries |
| Forwarding.DnsHandler.ForwardUdpQuery | pkg/dns/handler.go:704-761 | A query is admitted exactly when it has an ID, the table has room and the upstream address resolves; its entry and timer are made and the rewritten query is returned |
| Forwarding.DnsHandler.Expire | pkg/dns/handler.go:740-752 | The timer callback: removes whatever entry has its ID and answers it with the error response to its own query |
| Forwarding.DnsHandler.HandleUdpUpstreamResponse | pkg/dns/handler.go:788-870 | Removes the entry of the message's ID, stops its timer and relays, refuses or drops the message |
| Forwarding.RepeatsNames | pkg/dns/handler.go:816-825 | The 0x20 check accepts exactly the messages that repeat the names letter for letter |
| Forwarding.Relay | pkg/dns/handler.go:811-869 | What becomes of a message whose entry was found |
| ForwardingRuns.TableSafety | pkg/dns/handler.go:704-803 | In every interleaving of forwards, responses and timeouts, late callbacks included: the table never exceeds its limit, each admitted query is answered at most once, and the answer goes to the address it came from |
| ForwardingRuns.SentExactly | pkg/dns/handler.go:740-868 | At every event of every run at most one datagram is sent: an upstream message is passed on or refused if and only if it has a whole header, the ID of a pending query, a successful check and the names as sent; it is refused, with code 5, if and only if it is blocked; a SERVFAIL is sent if and only if a callback finds an entry under its ID |
| ForwardingRuns.PendingExactly | pkg/dns/handler.go:704-803 | An entry stays as it is until a message with its ID arrives, acceptable or not, or a callback for its ID runs; a new one is made for an admitted query only, under a free ID |
| ForwardingRuns.RelayedMessages | pkg/dns/handler.go:716-868 | In every interleaving and for all random octets: a relayed message and a refusal have the ID the client chose, and a relayed message repeats the client's question names up to ASCII case if no pointer followed in the query has a recased octet and no pointer of the message targets the ID |
| ForwardingRuns.RelayKeepsNames | pkg/dns/handler.go:832-868 | The proviso on the message is exact: relaying keeps its names for every client ID if and only if no pointer in its questions targets the ID |
| ForwardingRuns.RestoredIdReadAsName | pkg/dns/handler.go:832-868 | A run that shows the proviso is needed: the client asked for the root and receives a message that names "a" |
| ForwardingRuns.RecasedPointerRelayed | pkg/dns/handler.go:730-868 | A run that shows the proviso on the query is needed: the client asked for the root second and receives a message that names "x" |
| ForwardingTimers.LateTimerRun | pkg/dns/handler.go:740-805 | A run from the empty table that sends one client the error response to another client's query, under the other's ID |
| ForwardingTimers.LateTimerAnswersAnother | pkg/dns/handler.go:740-752 | Once a callback has outlived its entry, some continuation lets it answer another query with the wrong error response |
| ForwardingTimers.TimeoutsAnswerOwnQuery | pkg/dns/handler.go:740-805 | From any point of any run, with all later stops in time: every SERVFAIL is the error response to the query it answers, in every continuation, if and only if no callback is late at that point |
| Dnssec.RdataLess | pkg/dns/dnssec.go:191-205 | The comparison loop decides the order by first difference, with the absence of an octet first (section 6.3 of RFC 4034) |
| Dnssec.LessMeaning | pkg/dns/dnssec.go:191-205 | What the order is: the first octet in which two strings differ decides, and a prefix comes first |
| Dnssec.LessTotal | pkg/dns/dnssec.go:191-205 | The order is total: data that are not ordered are equal |
| Dnssec.LessTransitive | pkg/dns/dnssec.go:191-205 | The order is transitive |
| Dnssec.OrderedUnique | pkg/dns/dnssec.go:189-205 | Two ordered lists of the same data are the same list |
| Dnssec.SortRrsetSorts | pkg/dns/dnssec.go:189-205 | A sorted form exists |
| Dnssec.AssembleSignedData | pkg/dns/dnssec.go:182-217 | The appending loop builds the signed data of some sorted form of the RRset |
| SignedRead.SignedDataReads | pkg/dns/dnssec.go:182-217 | What is signed, read back (section 3.1.8.1 of RFC 4034): 18 octets of the RRSIG data, the canonical signer name, and exactly the given records in order - canonical owner, type, class, data - each with the original TTL of octets 4 to 7 of the RRSIG data |
| SignedRead.SectionReceived | pkg/dns/dnssec.go:112-173 | Every record that comes out of a packet, whatever its octets, is one for which that holds |
| CanonicalForm.SelectCovered | pkg/dns/dnssec.go:360-365 | All answers of that owner and type, each once, in order, with a data length that is the length of the data |
| CanonicalForm.SignedDataCanonical | pkg/dns/dnssec.go:182-217 | For records sharing owner, type and class: the signed data is the same for every order of arrival, for all received TTLs and for every outcome of the sort (sections 3.1.8.1 and 6.3 of RFC 4034) |
| CanonicalForm.SignedDataDetermined | pkg/dns/dnssec.go:182-217 | For one owner and type: the unstable sort leaves the signed data determined if and only if no two records with the same data differ in class, which the selection does not check |
| CanonicalForm.TwoClassesOpen | pkg/dns/dnssec.go:182-217 | A response for which it is open: two answers read from one packet with the same data and different classes, of which both orders are sorted and sign differently |
| KeyTag.NoOverflow | pkg/dns/dnssec.go:296-303 | On record data of at most 65535 octets the 32-bit accumulator does not overflow |
| KeyTag.CalculateKeyTag | pkg/dns/dnssec.go:296-305 | The tag is the folded sum of the zero-padded big-endian words (appendix B of RFC 4034), modulo 2^32 where the sum exceeds that |
| RateLimit.RateLimiter.constructor | pkg/dns/ratelimiter.go:22-35 | No buckets, and 100000 tracked addresses where none are given |
| RateLimit.RateLimiter.Allow | pkg/dns/ratelimiter.go:44-69 | Refines one request on the bucket map, for some eviction that is possible |
| RateLimit.RateLimiter.EvictExpiredOrOldest | pkg/dns/ratelimiter.go:71-91 | In whatever order the map is walked: deletes an expired bucket if there is one, else one with the least reset time, unless its key is the empty string |
| RateLimit.RateLimiter.GarbageCollect | pkg/dns/ratelimiter.go:107-117 | Deletes exactly the expired buckets |
| RateBound.SlidingBound | pkg/dns/ratelimiter.go:44-117 | In every run in which fewer than `maxTrackedIps` buckets are live whenever one is created, each address is allowed at most twice the limit in any closed interval no longer than the window |
| RateBound.RefusedExactly | pkg/dns/ratelimiter.go:51-68 | In every such run a request is refused if and only if the window of the last allowed one has not ended and has had its limit of requests |
| RateBound.RefusedAfterLimit | pkg/dns/ratelimiter.go:51-68 | Hence a refused address has had the limit of requests in the window before |
| RateBound.EvictionChoice | pkg/dns/ratelimiter.go:71-91 | An eviction deletes at most one other bucket: an expired one if there is any, else one with the least reset time |
| RateBound.BoundExact | pkg/dns/ratelimiter.go:44-91 | Over all runs with requests from a given set of addresses: each is allowed at most twice the limit in any interval of one window, if and only if there are no more addresses than buckets; beyond that, live buckets push each other out |
| Sweeps.SweepsInvisible | pkg/dns/ratelimiter.go:44-117 | Garbage collection is invisible over whole runs: move, add or delete sweeps anywhere, and with suitable evictions every request gets the verdict it had |
| RateBound.TableFits | pkg/dns/ratelimiter.go:51-61 | The map never outgrows its limit, as long as no address is the empty string |
| RateBound.TableFitsExact | pkg/dns/ratelimiter.go:51-91 | Over all runs with requests from a given set of addresses: the map keeps to its limit if and only if none of them is the empty string or there are no more of them than buckets |
| Circuit.ProxyCircuitBreaker.constructor | pkg/proxy/circuit.go:29-36 | A closed breaker without failures |
| Circuit.ProxyCircuitBreaker.Begin | pkg/proxy/circuit.go:39-58 | The locked section before the action |
| Circuit.ProxyCircuitBreaker.End | pkg/proxy/circuit.go:62-84 | The locked section after the action |
| Circuit.AlwaysSound | pkg/proxy/circuit.go:38-84 | In every interleaving of begins and late completions: closed if and only if failures are below the threshold, half open if and only if the trial flag is set |
| Circuit.OneTrial | pkg/proxy/circuit.go:42-59 | Whenever the breaker is half open, exactly one call was started since it became so: the one that opened it |
| Circuit.CoolsDown | pkg/proxy/circuit.go:42-51 | After a failure that leaves the breaker open, no call starts until more than the reset time has passed since that failure |
| Circuit.OpensAtFifthFailure | pkg/proxy/circuit.go:65-74 | A closed breaker is opened by an event if and only if that is the fifth failure since it closed, however many successes came between |
| Circuit.TrialRuns | pkg/proxy/circuit.go:42-84 | While the breaker is half open, the trial runs, and so do the calls it found running |
| Circuit.TrialDecides | pkg/proxy/circuit.go:62-84 | At any half open moment of any run: the call that opened the episode decides how it ends, in every continuation, if and only if no call was running when it started |
| Circuit.OlderCallDecides | pkg/proxy/circuit.go:62-84 | A run that shows it: the breaker closes on the success of an older call while the trial is still running |
| Sni.LocateExtensions | pkg/proxy/sni.go:136-167 | Where the extension block is, or an error when a length runs past the data |
| Sni.ReadServerName | pkg/proxy/sni.go:186-208 | The host name of a server_name extension |
| Sni.ExtractSNI | pkg/proxy/sni.go:131-214 | On every byte string the loop terminates within bounds and computes the recursive parser |
| Sni.EncodedHello | pkg/proxy/sni.go:131-214 | On every encoded ClientHello (section 4.1.2 of RFC 8446) followed by anything, the parser returns what the list of extensions says |
| Sni.FirstServerName | pkg/proxy/sni.go:169-211 | If the first server_name extension starts with a host_name entry (section 3 of RFC 6066), exactly that name is returned if and only if the extension is among the first 51 |
| Sni.SniExactly | pkg/proxy/sni.go:131-214 | The result for every encoded ClientHello: extensions whose first entry is no host name are passed over, the first other server_name decides with the name it holds or an error, and no name or too many extensions are told apart |
| Sni.Truncated | pkg/proxy/sni.go:131-167 | As long as a hello has not arrived as a whole, no name is taken from it |
| Sni.TrailingIgnored | pkg/proxy/sni.go:131-214 | On any octets, a name that was found is unchanged by whatever follows |
| Hosts.DnsFindHostConfig | pkg/dns/server.go:57-81 | The exact entry, else the first wildcard found by dropping labels from the left, else the catch-all |
| Hosts.SniFindHostConfig | pkg/proxy/sni.go:216-231 | The exact entry, else the first wildcard |
| Hosts.HttpFindWildcardHost | pkg/proxy/http.go:238-251 | The first wildcard found by dropping labels from the left |
| Hosts.HttpFindHost | pkg/proxy/http.go:499-507 | For every table the same configuration as the TLS proxy finds |
| Hosts.DnsLookupMeaning | pkg/dns/server.go:57-81 | The exact entry of a name without a star, else the wildcard of the longest suffix that has one, else `*`, else nothing |
| Hosts.ProxyLookupMeaning | pkg/proxy/sni.go:216-231 | Both proxies: the exact entry, else the wildcard of the longest suffix of at least two labels that has one, else nothing |
| Hosts.NormalHostMeaning | pkg/dns/server.go:39-41 | Names are compared up to ASCII case and one trailing dot |
| Hosts.LookupsAgree | pkg/dns/server.go:57-81 | Whatever configuration the proxies find for a name without a star, the DNS server finds the same; where they find none, it can only answer from the wildcard of the last label or from `*` |
| Firewall.MatchDomainMeaning | pkg/firewall/firewall.go:25-42 | A pattern matches its own name, everything if it is `*`, and as a wildcard exactly the names of which its labels are a proper suffix - after lower-casing and dropping one trailing dot |
| Firewall.WildcardIsLabelSuffix | pkg/firewall/firewall.go:36-39 | Comparing text behind a dot is comparing whole labels |
| Firewall.VerdictsIgnoreOrder | pkg/firewall/firewall.go:138-216 | No verdict depends on order or repetitions within a rule list |
| Firewall.CoveredRangeRedundant | pkg/firewall/firewall.go:114-191 | Deleting a range that another of the same list covers changes no verdict |
| Firewall.RestrictedBlocks | pkg/firewall/firewall.go:55-112 | The octet tests are membership in a fixed union of CIDR blocks, for both address families |
| Firewall.Verdicts | pkg/firewall/firewall.go:138-216 | Which rule wins, as an if-and-only-if for each of the three verdicts |
| Firewall.VerdictsWithout | pkg/firewall/firewall.go:138-216 | Without a configuration only the restricted blocks are denied; an address that does not parse is denied wherever addresses are judged |
| LogLines.LogReader.ProcessFrame | pkg/controlplane/docker_logs.go:452-467 | The loop that shortens the chunk refines the line splitter with its capped buffer |
| LogLines.FindNewline | pkg/controlplane/docker_logs.go:454-454 | The first newline or the end |
| LogLines.ExtendLossless | pkg/controlplane/docker_logs.go:452-467 | The reference is right: its lines and tail are newline-free and make up the stream |
| LogLines.FramingIndependence | pkg/controlplane/docker_logs.go:452-467 | The lines sent on are the newline-terminated lines of the concatenated stream if and only if no newline arrives after the pending text outgrew 5242880 octets |
| LogLines.LongLineLost | pkg/controlplane/docker_logs.go:452-467 | A stream of frames within the size limit that loses a line: five full frames and one more without a newline, then the newline, send on an empty line |
| LogLines.SameStreamSameLines | pkg/controlplane/docker_logs.go:452-467 | Two ways to cut the same octets into frames give the same lines while the pending text stays under the cap |

## Left out

- Edns.UpstreamAsksTheSame: for queries without compression; on compressed ones the case step alone is covered, by SteadyReading.MixKeepsQuestions.
- KeyTag.CalculateKeyTag: the branch for algorithm 1, which reads two octets of the key, is not modelled.
- Dnssec.AssembleSignedData: the library sort is represented by one sorted form; the theorems about it hold for every sorted form.
- Firewall.Verdicts: starts from parsed addresses and ranges; an unparseable text that is itself on the allow list is not distinguished from other unparseable text.
- ManyAnswers.ManyQuestionsRead: while the questions end within 16384 octets, as pointers have 14 bits; the owner is chosen by answer index, which is not the question an answer belongs to in general.
- ManyReplies.ReplyToQuestions: under the same limit, and for fewer than 1024 questions, so that the answer count cannot wrap; questions of which only some are configured are left out.
- Signature, hash and key primitives, and the selection of a key for a signature.
- Validity windows of signatures, and the list of domains that must be signed.
- The check of the client address before forwarding.
- Forwarding over TCP, DNS over TLS and DNS over HTTPS.
- Replacing the configuration while a query is being resolved.
- Parsing and printing of IP addresses, CIDR ranges, URLs and JSON; case folding beyond ASCII.
- Validation of anything but host names and DNS records.
- Sub-millisecond differences of the cache clock, which the program truncates after subtracting.
- Reading frames from the log stream: the 8-octet header, the frame size limit and read errors.
- Sockets, listeners, tunnelling, shutdown, the dashboard, audit logging and the command line.
