# A verified model of the RDAP/WHOIS server

The server answers RDAP and WHOIS queries from one of three stores. This project models the parts where its answers depend on several pieces of code agreeing, and proves when they agree. Where they do not, it proves exactly when.

- **Aggregates read while writers commit** (`SnapshotRead`, `RdapDomain`, `AggregateReads`, `Registry`). A domain, its contacts and its nameservers are read one statement at a time. Between any two statements writers may commit any new state. With one snapshot per transaction, or with the memory store's read lock, every interleaving returns the aggregate of one committed state, less only what failed lookups left out, and the RDAP entities show that state. With a snapshot per statement a run is given that mixes two states.
- **Address blocks, in four implementations** (`Bits`, `Cidr`, `CidrAgreement`, `AddressText`). Masked bytes, masked big integers, numeric ranges with byte-string comparison, and prefix containment are one relation for addresses and ranges of one family. Rows that store several blocks are the exception: MySQL then tests the hull.
- **Search patterns** (`Glob`, `Regexp`, `SqlLike`, `NamePatterns`). The text the memory store builds is tokenised and matched as a regular expression, and the languages are compared with LIKE on the SQL stores' translation.
- **jCard** (`JCard`). The printer and the parser, as a round trip with its exact loss.
- **The JWKS key cache** (`KeyCache`). Threads that read, miss, fetch, install and read again, over all interleavings.
- **Two front ends, one store** (`DomainNames`, `FrontEnds`, `MemoryStore`, `WhoisRender`, `WhoisReader`, `WhoisText`). Validation and normalisation of names, which names each front end finds, the search loops under any map order, what a reader of the WHOIS text gets back, and which domains' text reveals redacted contacts.

`Text` and `Wrappers` hold the string operations and the option types the others share. A byte is modelled by its eight bits, and the bitwise operators act on those. Strings are ASCII.

## Where the code differs from its documentation

The model follows the code in each case.

- The comment at internal/store/memory.go:476 calls `?` a wildcard for a single character. `compileGlob` leaves it in the expression, where it makes the character before it optional, or drops the `^` anchor at the start of a pattern. `NamePatterns.CompileGlobHonoursMarksIff` says when this matters: exactly when the pattern has a `?`.
- `SearchDomainsByName` rewrites the pattern before `compileGlob` rewrites it again, so `*` asks for a dot and then any run, and `?` asks for a dot. `NamePatterns.DomainSearchesAgreeIff` says when this matters: exactly when the pattern has a wildcard.
- The jCard printer writes the telephone type as an array and the parser only knows a string, so a fax number comes back as the voice number.
- The SQL stores take the registrant column for the registrar as well, so both RDAP entities show the registrant's card (`RdapDomain.ResponseShowsOneState`).
- WHOIS redaction covers the contact block but neither the Registrar line nor the Registrant line above it. `WhoisRender.LeaksIff` says for which domains redacted cards can be told from the text. No store sets a contact's privacy, and the SQL schema has no column for it, so nothing read from SQL is redacted at all.
- When a contact lookup fails, the SQL stores go on, and the response shows an example registrar or registrant for a contact that exists (`RdapDomain.FailedLookupShowsExample`).
- A name of 253 characters with two final dots is found by WHOIS and rejected by RDAP, which removes one dot before it checks the length (`FrontEnds.DomainQueryAgrees`, `FrontEnds.OnlyWhoisFindsTwoDots`).
- The web page takes a dotted IPv4 address at the end of IPv6 text (section 2.2 of RFC 4291) for one group and reads it up to its first dot. `AddressText.MixedReadRightIff` says when the value is right all the same: exactly when everything after the elision is zero.
- A call of `keyfunc` can fail although the document it fetched and installed has its key, when an older document is installed in between (`KeyCache.OwnKeyCanBeLost`).

## Model

| member | source | states |
|---|---|---|
| Registry.ResolutionsAgreeIff | internal/store/memory.go:272-298 | The memory store and the SQL stores resolve a domain to the same aggregate, unless the registrar handle is empty, no role lists the empty handle and a contact is stored under it |
| Registry.ResolveIs | internal/store/mysql.go:189-222 | The SQL aggregate holds exactly the stored contacts that are the registrar or in a role, the stored nameservers listed, and the registrar's contact |
| Registry.ResolveInMemoryIs | internal/store/memory.go:272-298 | So does the memory store's, which also takes a contact stored under an empty registrar handle |
| AggregateReads.PopulateDomainContacts | internal/store/mysql.go:528-545 | The contact columns become single-handle roles, null columns none, and the registrant is the registrar |
| AggregateReads.RoleMap | internal/store/mysql.go:531-545 | A role is present exactly when its column is not null |
| AggregateReads.GatherHandles | internal/store/postgres.go:142-151 | In any map order the gathered set is every role's handles and the registrar's unless empty |
| AggregateReads.ResolveContacts | internal/store/postgres.go:152-160 | In any order exactly the stored contacts among the handles are resolved, and the registrar is the one under its handle |
| AggregateReads.ResolveNameservers | internal/store/postgres.go:162-171 | Exactly the stored nameservers among the domain's handles are resolved |
| AggregateReads.GatherAndResolve | internal/store/mysql.go:189-222 | The whole read equals the specification of resolving one domain against one state of the tables |
| SnapshotRead.Step | internal/store/postgres.go:111-178 | Every step, of a writer or of the reader, keeps the reader's partial results equal to those of its snapshot, less failed lookups |
| SnapshotRead.InvThroughout | internal/store/postgres.go:111-178 | That holds in every state of every run |
| SnapshotRead.ReadsOneCommittedState | internal/store/mysql.go:166-229 | For every interleaving a finished read is the aggregate of one state current at some moment since it began, less exactly the records whose own lookups failed |
| SnapshotRead.ReadShowsOneState | internal/store/postgres.go:111-178 | Read off the rows of one such state: nothing is found exactly when no row has the name as LDH or Unicode name; otherwise the aggregate shows the first such row, column by column, and the records its columns refer to, less the lost ones |
| SnapshotRead.FindRowIs | internal/store/mysql.go:180-187 | The row found is the first whose LDH name or Unicode name is the one asked for |
| SnapshotRead.StatementsAloneMixStates | internal/domain/models.go:194-200 | With a snapshot per statement there is a run, over states the SQL schema can hold, whose result is the aggregate of no committed state |
| RdapDomain.ResponseShowsOneState | internal/service/service.go:332-428 | The registrar and registrant entities are those one committed state calls for; an example is shown exactly when that state lacks the contact, no column lists it or its lookup failed |
| RdapDomain.FromSqlRow | internal/service/service.go:350-421 | From a SQL row, both entities follow the registrant column and show its contact's card when it exists and was read |
| RdapDomain.EntitiesShow | internal/service/service.go:350-421 | From any aggregate, the registrar's card and that of the first handle in the registrant role read back as the contacts' own; examples stand for contacts that were not resolved |
| RdapDomain.ExampleRegistrarReads | internal/service/service.go:357-366 | The example registrar's card reads back as a named contact with an address |
| RdapDomain.ExampleRegistrantReads | internal/service/service.go:384-402 | The example registrant's card reads back as a named contact with address, telephone and email |
| RdapDomain.FailedLookupShowsExample | internal/store/postgres.go:152-160 | A run in which the registrar's contact is stored throughout, its lookup fails, and the response shows the example registrar |
| Cidr.MaskContainsIsInBlock | internal/middleware/clientip.go:110 | Comparing bytes under the mask is agreement of the leading bits |
| Cidr.IpAllowed | internal/middleware/clientip.go:101-115 | A peer is trusted exactly when it parses and lies in some trusted block |
| Cidr.FillHostBits | internal/store/mysql.go:704-713 | The bit loop sets the low host bits and changes no bit above them |
| Cidr.LowBitsStep | internal/store/mysql.go:708-712 | One turn of the loop extends the set low bits by one, for any buffer |
| Cidr.IpRange | internal/store/mysql.go:686-714 | The bounds are the lowest and highest address of the prefix, in the columns of its family, without wrap-around |
| Cidr.InBlockIsInterval | internal/store/mysql.go:684-685 | The addresses of a block are the interval between its bounds |
| Bits.LexIsNumeric | internal/store/mysql.go:337 | Byte-string order on buffers of one length is numeric order |
| Bits.BigEndianIsBits | internal/store/mysql.go:696 | The big-endian value of a buffer is the value of its bits |
| Cidr.RangeTestIsContainment | internal/store/mysql.go:315-341 | For a row with one block the MySQL range test is the PostgreSQL containment test |
| Cidr.NestedOrDisjoint | internal/store/mysql.go:321-341 | Two blocks overlap exactly when one contains the other |
| CidrAgreement.AndClearsLowBits | web/index.html:364-365 | Masking a big integer with the complement of the host mask drops the host bits |
| CidrAgreement.AddrInRangeIsInBlock | web/index.html:358-366 | The page's test is agreement of the leading bits |
| CidrAgreement.MembershipTestsAgree | web/index.html:358-366 | Masked bytes, masked big integers, the range interval and containment of the bare address agree on every prefix and address of one family |
| CidrAgreement.MixedFamilies | web/index.html:358-366 | Across families the server never matches and the page matches exactly by the integers left after the host bits |
| CidrAgreement.PostgresMatchIsMySqlMatch | internal/store/postgres.go:264-269 | Whatever PostgreSQL matches, MySQL matches on the hull of the row's blocks |
| CidrAgreement.MySqlMatchesMoreExactly | internal/store/mysql.go:321-341 | MySQL alone matches exactly when the query fits the hull and each block is beside it or narrower than it |
| CidrAgreement.OneBlockRowsAgree | internal/store/postgres.go:264-269 | With one block the databases match the same queries |
| CidrAgreement.HullMatchesWithoutPostgres | internal/store/mysql.go:321-341 | A row, its hull and a query that only MySQL matches |
| AddressText.Accumulate | web/index.html:387-389 | Shifting and or-ing pieces below the shift width gives the positional value |
| AddressText.PiecesOfSpelling | web/index.html:378-387 | The full text and every text with one run of zero groups elided are split into the same eight groups |
| AddressText.Ipv6ToBigInt | web/index.html:377-391 | Every spelling of eight groups is read as their positional value; text ending in a dotted IPv4 address is read right exactly when all of it after the elision is zero |
| AddressText.MixedReadRightIff | web/index.html:389 | With the dotted address cut off at its first dot and counted as one group, the value is right exactly when every group after the elision and the address are zero |
| AddressText.Ipv4ToBigInt | web/index.html:373-375 | Four decimal pieces are read as their positional value |
| AddressText.NumeralIsRead | web/index.html:389 | A numeral written in digits of either case, with any leading zeros, is read as the number it writes |
| AddressText.DigitsAreNumeral | web/index.html:389 | And any digits write the number they are read as |
| AddressText.SpelledIsPrinted | web/index.html:377-391 | Text that is read as the groups of an address is a print of that address |
| AddressText.HextetsArePositional | internal/store/mysql.go:702-703 | The positional value of the hextets is the big-endian value of the sixteen bytes |
| AddressText.AddrInRangeOnText | web/index.html:358-371 | On addresses and ranges printed in digits of either case, abbreviated or not, with or without a prefix length, the verdict is the server's on the bytes, and across families that of the integers left after the host bits |
| NamePatterns.CompileGlobLanguage | internal/store/memory.go:547-554 | Without '?', the pattern compiles and matches exactly its glob language, runs staying on one line |
| NamePatterns.ParseHead | internal/store/memory.go:548-549 | How one pattern character and the '?' marks after it are tokenised |
| NamePatterns.CompiledMatchesShortest | internal/store/memory.go:548-549 | A compiled pattern matches the text left when every marked character and every run is empty |
| NamePatterns.CompileGlobHonoursMarksIff | internal/store/memory.go:476 | compileGlob reads a pattern as a glob of one-line names, '?' included, exactly when it has no '?' |
| NamePatterns.LikeLanguage | internal/store/postgres.go:622-626 | LIKE on the translated pattern matches exactly its glob language |
| NamePatterns.StoresAgreeIff | internal/store/memory.go:419-439 | Memory and SQL nameserver searches select the same one-line names for a lowered pattern exactly when it has no '?' |
| NamePatterns.HandleSearchesAgreeIff | internal/store/postgres.go:464-473 | Contact-handle searches, case folded on both sides, select the same one-line handles exactly when the pattern has no '?' |
| NamePatterns.DomainSearchLanguage | internal/store/memory.go:351-354 | The double translation always compiles and matches exactly the dotted reading of the lowered pattern |
| NamePatterns.DomainSearchFindsNoMore | internal/store/memory.go:351-364 | Whatever it matches, LIKE on the lowered pattern matches |
| NamePatterns.DomainSearchesAgreeIff | internal/store/memory.go:351-364 | The two match the same names exactly when the pattern has no wildcard |
| JCard.ParseVCardJSON | internal/store/mapping.go:124-198 | The pass over the properties gives each field the last well-typed value meant for it, and nothing for documents of another shape |
| JCard.DocumentIsRead | internal/store/mapping.go:124-143 | A document is a card exactly when its second value is an array, and the card is of version 4.0 |
| JCard.TextIsRead | internal/store/mapping.go:149-177 | The last text under "fn", "kind", "org", "email" or "contact-uri" is that field, and a field without one is empty |
| JCard.FaxIsRead | internal/store/mapping.go:161-169 | The fax number is the last one whose type parameter is the text "fax" |
| JCard.VoiceIsRead | internal/store/mapping.go:161-169 | The voice number is the last one of any other type, or of none |
| JCard.AddressIsRead | internal/store/mapping.go:178-197 | The last "adr" is the address, its country code and seven places in order |
| JCard.PrintedDocument | internal/service/service.go:622-669 | The printed document is a version 4.0, a name and exactly one property, literally given, for every other field that is not empty |
| JCard.CardOfAppend | internal/store/mapping.go:145-192 | One more property sets at most the one field it is for |
| JCard.RoundTrip | internal/service/service.go:622-669 | Reading back a printed card gives its canonical form: version 4.0, the fallback name if unnamed, a fax number in place of the voice number, all else unchanged |
| JCard.RoundTripIsIdentityIff | internal/service/service.go:622-669 | A card survives exactly when it is 4.0, named or without fallback, and has no fax number |
| JCard.SecondRoundTrip | internal/store/mapping.go:124-198 | A second round trip changes nothing |
| JCard.NoiseIsIgnored | internal/store/mapping.go:146-149 | Unknown, short, ill-typed or non-array properties may stand anywhere |
| JCard.NeighboursCommute | internal/store/mapping.go:145-192 | Neighbours of different names may be exchanged |
| JCard.LaterWins | internal/store/mapping.go:145-192 | An earlier property for the same field has no effect, whatever stands between |
| KeyCache.BuildKeySet | internal/auth/auth.go:124-137 | The build holds every kid of a parsed key with its last key |
| KeyCache.BuildIsLast | internal/auth/auth.go:124-137 | The key built for a kid is that of the last entry that has the kid and parses |
| KeyCache.UsableBuilds | internal/auth/auth.go:138-140 | The build is empty exactly when no key parses |
| KeyCache.JWTAuthenticator.RefreshKeys | internal/auth/auth.go:101-146 | The cache becomes the build of a usable document and otherwise stays as it was |
| KeyCache.JWTAuthenticator.Keyfunc | internal/auth/auth.go:197-219 | Uninterrupted, a cached key is returned without a fetch, and a missing one is the fetched document's or an error |
| KeyCache.NextKeepsInv | internal/auth/auth.go:197-219 | Every step of any thread keeps the cache one complete build and every call sound |
| KeyCache.CacheIsNeverMixed | internal/auth/auth.go:197-219 | In every run the cache is empty or one served document's build, returned keys are some served document's, and no call fetches twice |
| KeyCache.NeverEmptiedAgain | internal/auth/auth.go:138-145 | Once filled the cache is never empty again |
| KeyCache.FetchesOnlyOnMiss | internal/auth/auth.go:197-219 | Over every run, a call that never fetched returned the key its first read found, and one that fetched or failed found none there |
| KeyCache.OnlyInstallChangesCache | internal/auth/auth.go:142-145 | Only an installation changes the cache |
| KeyCache.SecondReadResult | internal/auth/auth.go:212-218 | The second read gives the last installed document's key, hence the call's own unless another was installed since |
| KeyCache.OwnKeyCanBeLost | internal/auth/auth.go:207-218 | A run in which a call fails although the document it installed has its key |
| DomainNames.ValidateLabel | internal/rdap/rdap.go:70-83 | The loop accepts exactly labels of 1 to 63 letters, digits and inner hyphens |
| DomainNames.ValidateLDHName | internal/rdap/rdap.go:65-86 | The validator decides the test on the pieces between dots |
| DomainNames.LdhNameIff | internal/rdap/rdap.go:65-86 | That test accepts exactly valid labels joined by dots, with at most one final dot and at most 253 characters |
| DomainNames.NormalizeFixedPoint | internal/rdap/rdap.go:88-99 | Normalising again changes nothing, or once more drops a dot, exactly when the trimmed name ended in two |
| FrontEnds.DomainLine | internal/whois/whois.go:219-240 | A "domain X" line asks for X as a domain |
| Text.LowerForgetsCase | internal/rdap/rdap.go:90 | Two texts are lowered to one exactly when they differ only in the case of letters |
| FrontEnds.KeywordsAre | internal/whois/whois.go:227-239 | The keywords of each kind of query, in any case, and no others |
| FrontEnds.KeywordLine | internal/whois/whois.go:219-240 | A keyword and a name ask for the name, with any white space around and between them |
| FrontEnds.DetectIs | internal/whois/whois.go:242-261 | What a lone word is taken for, by its prefix in any case, dot, slash and digits |
| FrontEnds.EverySpellingIsFound | internal/store/memory.go:266-270 | A stored name is found under every spelling in any case and with up to two final dots, by WHOIS always and by RDAP unless it would be too long |
| FrontEnds.OnlySpellingsAreFound | internal/store/memory.go:266-270 | No other name is found |
| FrontEnds.CaseIsIgnored | internal/whois/store.go:16 | Neither lookup minds the case of the name |
| FrontEnds.RdapIgnoresPadding | internal/rdap/rdap.go:89 | RDAP ignores white space around the name |
| FrontEnds.WhoisIgnoresPadding | internal/whois/whois.go:220-224 | WHOIS ignores white space around the line and takes any between the words |
| FrontEnds.DomainQueryAgrees | internal/handlers/handlers.go:145-165 | RDAP and the WHOIS query "domain X" give the same aggregate or none, exactly unless X is a stored name of 253 characters with two final dots, which only WHOIS finds |
| FrontEnds.OnlyWhoisFindsTwoDots | internal/rdap/rdap.go:65-68 | A valid name of 253 characters that WHOIS finds under two final dots and RDAP does not |
| FrontEnds.BareQueryAgrees | internal/whois/whois.go:243-261 | A name alone on a WHOIS line finds what "domain X" finds if it has a dot and does not begin with "ns", and nothing otherwise; hence what RDAP finds, exactly then |
| MemoryStore.Collect | internal/store/memory.go:359-368 | In any map order a search returns records under distinct matching keys, as many as there are up to a positive limit |
| MemoryStore.DomainMatchesEntity | internal/store/memory.go:500-537 | In any order, true exactly when some stored entity of the domain matches the property |
| MemoryStore.CollectWithEntity | internal/store/memory.go:487-495 | The reverse search returns distinct domains with a matching entity, up to the limit |
| MemoryStore.CollectByAddress | internal/store/memory.go:445-466 | A nameserver is returned at most once for each family that lists the address, and the number is that of the hits up to the limit |
| MemoryStore.HitsCount | internal/store/memory.go:445-466 | A nameserver is hit once for its IPv4 list and once for its IPv6 list |
| MemoryStore.ClampLimit | internal/handlers/handlers.go:366-371 | With a positive maximum the limit lies between 1 and it; a request within the maximum gets its own limit and any other the maximum |
| MemoryStore.MemoryStore.GetDomainAggregate | internal/store/memory.go:262-299 | The nested loops give the memory store's resolution of the domain under the lowered name without a final dot |
| MemoryStore.MemoryStore.SearchDomainsByName | internal/store/memory.go:347-369 | For any compiler of expressions, an error exactly when the twice-rewritten pattern does not compile, else the selection of the domains whose name it matches |
| MemoryStore.NameSearchIsDotted | internal/store/memory.go:351-364 | With a compiler that agrees with the modelled fragment the answer is the selection of the domains whose name the dotted reading matches |
| MemoryStore.MemoryStore.SearchContactsByName | internal/store/memory.go:393-417 | The same for the contacts, by lowered handle |
| MemoryStore.MemoryStore.SearchNameserversByName | internal/store/memory.go:419-439 | The same for the nameservers, by name |
| MemoryStore.PatternSearchIsGlob | internal/store/memory.go:397-415 | Without '?' the answer of either is the selection of the records whose subject the lowered glob matches |
| MemoryStore.ContactSearchIsGlob | internal/store/memory.go:393-417 | Without '?' the contact search selects the contacts whose handle the pattern matches, whatever the case of either |
| MemoryStore.NameserverSearchIsGlob | internal/store/memory.go:419-439 | Without '?' the nameserver search selects the nameservers whose name the pattern in lower case matches |
| MemoryStore.ReverseSearchIsGlob | internal/store/memory.go:477-537 | Without '?' the reverse search selects the domains with a linked, stored contact whose handle, roles, name or email, as the property says, the pattern matches in any case |
| MemoryStore.PatternCaseIsIgnored | internal/store/memory.go:351 | No search minds the case of its pattern |
| MemoryStore.MemoryStore.SearchDomainsByNS | internal/store/memory.go:371-391 | The stored domains among the listed names, in order, up to the limit |
| MemoryStore.ServedByAnyCase | internal/store/memory.go:375-376 | A nameserver is found in any case, with its whole list of domains up to the limit |
| MemoryStore.StoredConcat | internal/store/memory.go:382-389 | The stored domains of a list are those of its parts, in order |
| MemoryStore.MemoryStore.SearchNameserversByIP | internal/store/memory.go:441-467 | The selection by address over the store's nameservers |
| MemoryStore.MemoryStore.ReverseSearchDomainsByEntity | internal/store/memory.go:477-496 | An error exactly when the pattern does not compile, else the selection of the domains with a matching entity |
| MemoryStore.MemoryStore.HandleSearchDomains | internal/handlers/handlers.go:361-394 | Exactly one of the two patterns must be given; the answer is that search's under the request's limit, and with a positive maximum never longer |
| MemoryStore.MemoryStore.HandleReverseSearch | internal/handlers/handlers.go:309-348 | Refused when the extension is off or not exactly one property is given; otherwise the reverse search by that property, and with a positive maximum never longer |
| MemoryStore.MemoryStore.HandleSearchNameservers | internal/handlers/handlers.go:449-482 | The same as for domains, by name or by address |
| WhoisRender.RenderDomain | internal/whois/render.go:12-73 | The builder's text is the specified one |
| WhoisReader.RenderReadsBack | internal/whois/render.go:12-73 | A reader of labelled lines gets back from the text every field the record shows, each in its own place: names, contacts by role, nameservers with addresses, DNSSEC, dates and status |
| WhoisReader.TextTellsVisible | internal/whois/render.go:12-73 | Two records have one text exactly when they show the same |
| WhoisReader.LabelIsTitle | internal/whois/render.go:75-90 | The title of each of the five roles, in any case, and none for other roles |
| WhoisRender.DomainToWhois | internal/whois/store.go:25-68 | In any order of the roles map the record is the specified one for that order |
| WhoisText.TextShowsAggregate | internal/whois/store.go:25-98 | Read back from the text of an aggregate: the domain's fields, its nameservers, the registrar's name and identifier, and for each contact listed under a known role its card, or the word Redacted |
| WhoisText.JoinedInOrder | internal/whois/store.go:91 | Joined parts stand in their order with the separator between them |
| WhoisText.NonEmptyKeepsOrder | internal/whois/store.go:110-118 | Empty parts are left out and the others keep their order |
| WhoisRender.FirstRegistrant | internal/whois/store.go:53-59 | The Registrant field is the first named contact in a registrant role, redacted or not |
| WhoisText.RegistrantNameIs | internal/whois/store.go:53-59 | That field is the name of the first contact in a registrant role, in any case, that has one |
| WhoisRender.RenderTellsNames | internal/whois/render.go:12-73 | Two records alike but for redacted details and the two names render alike exactly when the lines naming registrar and registrant are equal |
| WhoisRender.NamesTellBoth | internal/whois/render.go:25-29 | Those lines are equal exactly when both names are, if the registrar's name is on one line |
| WhoisRender.RedactionLeaksOnlyNames | internal/whois/store.go:36-59 | From aggregates that differ only in redacted cards, the registrar's among them, the texts are equal exactly when the registrar's name and the first registrant's name are, if the registrar's is on one line |
| WhoisRender.LeaksIff | internal/whois/store.go:36-59 | Some other redacted cards give another text exactly when the registrar is redacted or, among the registrants, a redacted one comes before every open one with a name |
| WhoisRender.NothingLeaksWithOpenNames | internal/whois/store.go:36-59 | If neither the registrar nor a registrant contact is redacted the texts are equal, whatever the names and the order of roles |
| WhoisRender.RedactedRegistrantNameLeaks | internal/whois/store.go:54-59 | Any two names of a redacted registrant give two texts |
| WhoisRender.RedactedRegistrarNameLeaks | internal/whois/store.go:37-39 | Any two names of a redacted registrar give two texts, with no registrant at all |
| WhoisRender.LineBreaksHideNames | internal/whois/render.go:25-29 | Two aggregates with different names and one text, by a line break in the registrar's name |

## Left out

- Databases: the engines, SQL parsing, drivers, pools and collations. One snapshot per transaction, LIKE, and the comparison operators are taken as given. MySQL's case-insensitive collation is not modelled.
- SnapshotRead.ReadsOneCommittedState: assumes that a nameserver row is stored under its own handle, as its primary key guarantees. A failed lookup is a step that omits the record, since the code goes on after it.
- SnapshotRead.Step: takes the SQL stores' steps under the read lock too; the memory store's own loops, which run wholly under it, are MemoryStore.MemoryStore.GetDomainAggregate.
- Regexp.Parse: covers literals, escapes, '.', '^', '$', '*' and '?' with their lazy forms. The searches take the library's compiler as a parameter and hold for every pattern; the languages are given for patterns without '+', '(', ')', '[', '|', '{', '^', '$' and backslash.
- NamePatterns.LikeLanguage: is for patterns without '%', '_' and backslash, which the translation passes through unescaped.
- NamePatterns.StoresAgreeIff: compares the LDH-name column for one pattern text; the memory store lowers the pattern first, and the SQL stores leave case to the database and also try the Unicode name.
- DomainNames.NormalizeFixedPoint: covers ASCII names; conversion to and from punycode is not modelled.
- AddressText.Ipv6ToBigInt: is for text that spells an address; what the page makes of text that spells none is not modelled.
- Cidr.IpRange: starts from a parsed prefix. IPv4-mapped IPv6 text and zones, which Go's packages classify differently, are excluded.
- KeyCache.BuildKeySet: takes the outcome of parsing each key as given; base64, key parameters and signatures are not modelled.
- JCard.ParseVCardJSON: works on JSON values; the JSON text itself is not lexed.
- WhoisReader.RenderReadsBack: is for records whose one-line fields have no line feed and whose nameserver names begin with no space; text with others can be read in two ways. The lines of an address may be several. A redacted contact and an open one named "Redacted" without details look alike.
- WhoisRender.DomainToWhois: takes dates as formatted text.
- MemoryStore.MemoryStore.SearchContactsByName: stands for SearchContactsByHandle too, which calls it.
- The handler that searches entities, which chooses between two names for one contact search.
- HTTP routing, percent-decoding of paths, TLS, logging, metrics, rate limiting, sockets and deadlines.
- Links, notices, events, nameserver objects and extension data of RDAP responses, which are constants and copies of single fields.
- Autnum and IP-network lookups in the memory store, which read one map entry; and which of several matching rows the SQL stores return for an address, since their queries do not order them.
- Removing repeated extension names from RDAP conformance, one membership test and an append.
