# A verified model of elodin's DNS test and load tooling

elodin is a filtering DNS forwarder. Around it stand two programs that speak DNS
by themselves: a Python generator of DNSSEC fixtures and a Go benchmark harness
with its own codec, mock upstreams and load generators. What those programs
promise is what the resolver's tests and numbers rest on, and it is what this
project models and proves.

- **DNSSEC fixtures** (`Names`, `Records`, `KeyTag`, `Signing`, `SigningLaws`,
  `TypeBitmap`, `Base32Hex`, `Nsec3`, `Nsec3Ring`, `FixtureMessage`): names and
  their canonical form, the octets an RRSIG is computed over and what they
  determine, wildcard owners, type bit maps, base 32, iterated hashing, the NSEC3
  ring and its partition of the hash space, whole messages. The key's signature
  and SHA-1 are function parameters; SHA-1 is any function with 20-octet results,
  and the nodes of a chain are required to hash apart where that matters.
- **The Go codec** (`DnsWire`, `MockAnswer`, `AnswerLaws`, `Framing`, `MockDns`):
  queries, the two loops that find a question, replies patched in place,
  many-record answers, and length-prefixed streams split into arbitrary reads.
- **The outage protocol** (`MockState`, `Trace`, `Outage`, `Datagrams`): the mock upstream's
  fields as a class, and the same updates interleaved with any number of
  connections and datagrams.
- **The unit parser** (`Text`, `UnitEnv`, `UnitEnvLaws`, `UnitPrinter`): systemd's
  line continuation as a one-bit machine, its closed form, and a printer it undoes.
- **Load generation** (`QueryNames`, `DohClient`, `LoadGen`, `Pacing`, `Recovery`):
  unique names and the slot schedule under every interleaving, fractional pacing,
  and the single pass that reports when an outage's losses came back.

`Reader` is a decoder of RFC 1035 messages that neither program contains. Both
codecs are measured against it, so a main result about an encoder says what an
independent reader recovers. `Bytes`, `Arithmetic` and `Wrappers` hold what
everything shares.

A loop of the sources is a method with its invariants, proved equal to a
specification function; the lemmas are about those functions. The mock, the DoH
counter and a connection's read side are classes, since their sources update
fields in place; `dict` and slice values that a loop extends are reassigned maps
and sequences, and `bytearray` and patched buffers are arrays.

Where the code and what is written about it differ, the model follows the code,
and lemmas say when the two agree and show where they part:

- `signed_label_count` says it leaves out a leading asterisk and leaves out every
  asterisk: `SigningLaws.LabelCountIsRfcsIff`, `SigningLaws.HonestCountSignsOwnerIff`
  and, for the text returned, `SigningLaws.HonestCountReturnsOwnerIff`; they part at
  `SigningLaws.AnInnerAsterisk`.
- `restore` looks at the mode and not at the sockets, so it undoes a refusal only
  if the mode still says so: `MockState.RestoreReleasesIff`, with a run in
  `MockState.BlackholingARefusedMockStrandsIt`. The harness never makes that
  call: its schedule fails and restores in turn.
- `answer` writes at least one record and announces a count truncated to 16 bits:
  `AnswerLaws.CountsAgreeIff`, and otherwise at `AnswerLaws.NoneAnnounced`.
- `frame` truncates the length to 16 bits: `Framing.FrameSurvivesIff`, with
  `Framing.OneOctetTooMany`.
- The load generator's interval is truncated to whole nanoseconds, so its schedule
  runs ahead of the rate: `LoadGen.TurnsInFirstSecond` gives the exact number of
  turns due in a second, `LoadGen.RatesThatOverrun` two rates at which it shows.
- `mockBlackhole` is said to answer no query it reads. A datagram or a query it has
  read but not looked at can still be answered exactly when its socket is open, or
  its listener still the mock's, for a restore may come first
  (`Datagrams.CanBeAnsweredIff`, `Outage.CanBeAnsweredIff`); without one it never is
  (`Datagrams.NoAnswerWithoutRestore`, `Outage.QueryReadWhileDownNeedsRestore`).
  `Datagrams.LateAnswer` and `Outage.AnswerDuringOutage` are runs in which an answer
  goes out late.

The names of a DoH client's queries never repeat, though their numbers may:
`DohClient.NamesNeverRepeat`, and for the numbers `DohClient.NumbersRepeatIff`.

`dafny verify dfyconfig.toml` verifies the project.

## Model

| member | source | states |
|---|---|---|
| `Names.EncodeWireName` | testdata/gen/sign_fixtures.py:49-58 | the wire form of every name whose labels fit 63 octets; on names without an inner empty label that is the length-prefixed encoding of exactly their labels |
| `Names.PackLabels` | testdata/gen/sign_fixtures.py:53-57 | the label loop writes every label behind its length octet, in order |
| `Names.WireNameOfLabels` | testdata/gen/sign_fixtures.py:49-58 | `wire_name` and `labels_of`, two separate readings of the text, agree on every name without an inner empty label, and its labels are valid and dot-free |
| `Names.LabelsOfJoin` | testdata/gen/sign_fixtures.py:132-134 | `labels_of` undoes joining with dots, with or without the final dot |
| `Names.LabelsOfLower` | testdata/gen/sign_fixtures.py:61-63 | lowercasing the text lowercases the labels and changes neither how it splits nor whether it can be encoded |
| `Names.LowerIs` | testdata/gen/sign_fixtures.py:61-63 | no octet of the lowercased text is upper case, every upper-case one is moved by 32, and no other is changed |
| `Names.CanonicalOfLabels` | testdata/gen/sign_fixtures.py:61-63 | the canonical form is the encoding of the lowercased labels (RFC 4034 section 6.2) |
| `Reader.PlainNameFinds` | testdata/gen/sign_fixtures.py:49-58 | a decoder finds every encoded name whatever surrounds it, and the offset after it |
| `Reader.NamePrefixFree` | testdata/gen/sign_fixtures.py:49-58 | an encoded name is never a prefix of another: equal concatenations have equal names and equal remainders |
| `Reader.ReadRecordFinds` | testdata/gen/sign_fixtures.py:122-129 | a decoder of RFC 1035 section 4.1.3 recovers every field of an encoded record anywhere in a message |
| `Records.WireIsEncoding` | testdata/gen/sign_fixtures.py:122-129 | `RR.wire` is the RFC 1035 encoding of the record with the labels of its name, class IN and the length of its RDATA |
| `Records.WireReads` | testdata/gen/sign_fixtures.py:122-129 | a reader sees the name's labels, the type, class 1, the TTL and the RDATA of the record itself, anywhere in a message |
| `Bytes.LessIff` | testdata/gen/sign_fixtures.py:184 | the order RDATA is sorted by: two octet strings compare at the first place they differ, a prefix first |
| `Bytes.NetworkOrder` | testdata/gen/sign_fixtures.py:126-127 | integers are packed most significant octet first |
| `KeyTag.Tag` | testdata/gen/sign_fixtures.py:89-96 | the key tag is the checksum of RFC 4034 appendix B, defined on 16-bit words with the carries folded in once |
| `KeyTag.SumOctets` | testdata/gen/sign_fixtures.py:92-94 | the octet loop computes the sum of the big-endian words |
| `KeyTag.OctetSumIsWordSum` | testdata/gen/sign_fixtures.py:89-96 | the octet-by-octet sum with alternating weights is the sum of big-endian words, an odd last octet high |
| `KeyTag.RdataIs` | testdata/gen/sign_fixtures.py:84-87 | the RDATA is flags, protocol, algorithm and public key, in that order |
| `KeyTag.TagIsSumModulo` | testdata/gen/sign_fixtures.py:89-96 | the tag is the word sum modulo 65535 iff adding the carries back carries no more, and one short of it otherwise |
| `KeyTag.RevokingMovesTheTag` | testdata/gen/sign_fixtures.py:84-96 | setting 0x0080 in flags that lack it moves the tag by 128, or by 129 exactly when the addition carries out of the low 16 bits of the sum, so the tag always changes (claimed at 387-390) |
| `Signing.PackPrefix` | testdata/gen/sign_fixtures.py:168-178 | the packed prefix is the specified one; what a reader sees in it is `SigningLaws.RrsigReads` |
| `Signing.PackBody` | testdata/gen/sign_fixtures.py:180-190 | the record loop builds one canonical record per element of the sorted set of RDATA |
| `Signing.Sign` | testdata/gen/sign_fixtures.py:155-193 | the returned RRSIG has the fields of `SigningLaws.RrsigReads`, and its signature is the key applied to exactly the octets of `SigningLaws.SignedOctetsRead` |
| `SigningLaws.SigningOwnerLabels` | testdata/gen/sign_fixtures.py:144-152 | the text `signing_owner` builds has exactly the labels RFC 4035 section 5.3.2 names, for every name and count |
| `SigningLaws.LabelCountIsRfcsIff` | testdata/gen/sign_fixtures.py:137-141 | for every owner, the root included: the count equals that of RFC 4034 section 3.1.3 iff no asterisk label stands after the first; the code drops every asterisk, its comment a leading one |
| `SigningLaws.HonestCountSignsOwnerIff` | testdata/gen/sign_fixtures.py:137-152 | with its honest count a name is signed under its own labels iff it has no asterisk or leads with one |
| `SigningLaws.HonestCountReturnsOwnerIff` | testdata/gen/sign_fixtures.py:144-152 | `signing_owner` with the honest count returns the very owner text iff the owner has no asterisk or starts with `*.` |
| `SigningLaws.AnInnerAsterisk` | testdata/gen/sign_fixtures.py:137-152 | an input where count and RFC differ: `a.*.b.` counts two where the RFC counts three, and is signed as a wildcard |
| `SigningLaws.RrsigReads` | testdata/gen/sign_fixtures.py:155-193 | a reader of the returned RRSIG sees the RRset's owner, type 46, TTL 3600, every argument as given, and for those left out the first record's type, its label count, original TTL 3600, expiration 1785664800 + 86400 * 3650, inception 1785664800 - 86400 * 30 and the key zone's lowercased labels; then the signature |
| `SigningLaws.StatedCountIsRfcs` | testdata/gen/sign_fixtures.py:137-172 | the label count stated where none is given is that of RFC 4034 section 3.1.3 for every owner without an asterisk further in |
| `SigningLaws.SignedOctetsRead` | testdata/gen/sign_fixtures.py:155-193 | a reader of the octets handed to the key sees the same fields and then the RRset: every record under the lowercased signing owner with the covered type, class 1 and TTL 3600, RDATA strictly ascending, and exactly those of the RRset |
| `SigningLaws.SigningInputIsDecodable` | testdata/gen/sign_fixtures.py:155-193 | a decoder that sees only the signed octets recovers type, algorithm, Labels, window, tag, lowercased signer, lowercased signing owner and the set of RDATA |
| `SigningLaws.SameInputIffSameFields` | testdata/gen/sign_fixtures.py:155-193 | two calls hand the key the same octets iff all those fields agree; order and duplicates in the RRset never matter (RFC 4034 sections 3.1.8.1 and 6.3) |
| `SigningLaws.ShortLabelsMove` | testdata/gen/sign_fixtures.py:144-193 | where the Labels field is short of two non-wildcard owners and nothing else signed differs, the signed octets agree iff the last Labels labels agree up to case |
| `SigningLaws.ShortLabelsAreTheWildcards` | testdata/gen/sign_fixtures.py:144-193 | and they are the octets the wildcard above signs with its own honest count, whatever text spells that wildcard and in whatever case (claimed at 783-790) |
| `SigningLaws.HonestSignaturePinsOwner` | testdata/gen/sign_fixtures.py:137-193 | two honest calls whose owners have no inner asterisk and whose signed octets agree are over the same owner up to case |
| `TypeBitmap.SetBit` | testdata/gen/sign_fixtures.py:201 | the masked or sets exactly the one bit counted from the most significant, and no other bit of the buffer |
| `TypeBitmap.HasBitIs` | testdata/gen/sign_fixtures.py:201 | bit k of an octet is its binary digit k from the top |
| `TypeBitmap.EnsureWindow` | testdata/gen/sign_fixtures.py:201 | `setdefault` keeps every window there is and adds a fresh zero buffer for a new one |
| `TypeBitmap.SetType` | testdata/gen/sign_fixtures.py:201 | the buffers hold exactly one type more: the one set |
| `TypeBitmap.AddType` | testdata/gen/sign_fixtures.py:199-201 | one turn of the filling loop keeps the dictionary of unshared buffers standing for the set of types seen |
| `TypeBitmap.FillWindows` | testdata/gen/sign_fixtures.py:198-201 | after the loop the dictionary stands for the set of all the types given |
| `TypeBitmap.WriteWindows` | testdata/gen/sign_fixtures.py:202-207 | the windows written in order are the encoding of the set the dictionary stands for |
| `TypeBitmap.BuildBitmap` | testdata/gen/sign_fixtures.py:196-207 | the result depends on the set of types alone, and is its encoding |
| `TypeBitmap.DecodesToItsTypes` | testdata/gen/sign_fixtures.py:196-207 | decoding the encoding gives back exactly the set, for every set of 16-bit types |
| `TypeBitmap.EncodingIsWellShaped` | testdata/gen/sign_fixtures.py:202-207 | windows strictly ascend, each length is 1 to 32, and no bit map ends in a zero octet (RFC 4034 section 4.1.2) |
| `Base32Hex.DecodeEncode` | testdata/gen/sign_fixtures.py:215-222 | a decoder undoes `base32hex` on every input in blocks of five octets |
| `Base32Hex.EncodeDecode` | testdata/gen/sign_fixtures.py:215-222 | every text of the alphabet in blocks of eight is the encoding of what it decodes to |
| `Base32Hex.EncodePreservesOrder` | testdata/gen/sign_fixtures.py:215-222 | on inputs of one length the text sorts exactly as the octets do (RFC 4648 section 7) |
| `Base32Hex.SameNumber` | testdata/gen/sign_fixtures.py:215-222 | octets and text are one number, read in base 256 and in base 32 |
| `Base32Hex.CharIs` | testdata/gen/sign_fixtures.py:215 | digit d is character d of `0123456789abcdefghijklmnopqrstuv` |
| `Nsec3.Hash` | testdata/gen/sign_fixtures.py:225-235 | the loop computes IH(salt, canonical name, iterations) of RFC 5155 section 5 |
| `Nsec3.HashEndsHashing` | testdata/gen/sign_fixtures.py:225-235 | the hash is the last of a sequence of digests, the first of the canonical name and the salt, each further one of the digest before and the salt, one per iteration |
| `Nsec3.ReadRdataReads` | testdata/gen/sign_fixtures.py:238-245 | a decoder of RFC 5155 section 3.2 recovers flags, iterations, salt, next hash and the set of types |
| `Nsec3.BuildRdata` | testdata/gen/sign_fixtures.py:238-245 | the packed RDATA is that of its fields, types as a set |
| `Nsec3.HashNodes` | testdata/gen/sign_fixtures.py:252-253 | every node is paired with its own hash, in order |
| `Nsec3.SortedMembers` | testdata/gen/sign_fixtures.py:252-255 | the entries sorted by hash are a permutation of those given |
| `Nsec3.SortIsStable` | testdata/gen/sign_fixtures.py:252-255 | the sort is by hash, and entries of one hash keep their order |
| `Nsec3.LinkRecords` | testdata/gen/sign_fixtures.py:256-261 | the record loop builds the specified dictionary, a later node of one name replacing an earlier |
| `Nsec3Ring.LastOfNameStays` | testdata/gen/sign_fixtures.py:256-261 | of the nodes of one name, the last in that order has its record in the dictionary |
| `Nsec3.BuildChain` | testdata/gen/sign_fixtures.py:248-261 | the dictionary returned is the chain whose records `Nsec3Ring.NodeRecordReads` reads |
| `Nsec3Ring.ChainReads` | testdata/gen/sign_fixtures.py:248-261 | for nodes with distinct hashes the hashes are strictly sorted, the keys are the nodes' names, and a reader of each record sees its own hash and the next |
| `Nsec3Ring.NodeRecordReads` | testdata/gen/sign_fixtures.py:248-261 | for nodes of different names, a reader of each node's record finds type 50, TTL 3600, the node's own hash under the zone, the zone's flags, iterations and salt, and exactly the node's own types |
| `Nsec3Ring.ChainGoesOn` | testdata/gen/sign_fixtures.py:248-261 | every node has a record, and exactly one record follows it |
| `Nsec3Ring.ChainIsOneRing` | testdata/gen/sign_fixtures.py:248-261 | following next from any record visits every node exactly once in as many steps as there are nodes, and returns |
| `Nsec3Ring.WalkExists` | testdata/gen/sign_fixtures.py:248-261 | from every node there is a walk of every length along the records |
| `Nsec3Ring.ChainPartitionsHashes` | testdata/gen/sign_fixtures.py:248-261 | every hash is owned by exactly one record or strictly inside exactly one record's span, never both; the last span wraps (RFC 5155 section 3.1.7, claimed at 1045-1046) |
| `Nsec3Ring.PartitionsIffHashesApart` | testdata/gen/sign_fixtures.py:248-261 | for every list of nodes of different names, the records partition the hash space iff the names hash apart |
| `Nsec3Ring.CaseCollides` | testdata/gen/sign_fixtures.py:225-261 | names that hash alike without any collision of SHA-1: `a.` and `A.` together give a chain that is no partition |
| `Nsec3Ring.LoneRecordCoversTheRest` | testdata/gen/sign_fixtures.py:256-261 | the record of a lone name covers every hash but its own |
| `Nsec3Ring.HashOrderIsCanonicalOrder` | testdata/gen/sign_fixtures.py:248-261 | hash order is the canonical order of the hashed owner names (RFC 4034 section 6.1, RFC 5155 section 1.3) |
| `FixtureMessage.AppendSection` | testdata/gen/sign_fixtures.py:270-272 | the inner loop appends every record of a section in order |
| `FixtureMessage.Build` | testdata/gen/sign_fixtures.py:264-273 | the message is header, question and the three sections in order |
| `FixtureMessage.MessageReads` | testdata/gen/sign_fixtures.py:264-273 | walking the message by its header counts finds id 0x1234, flags 0x8580 with the rcode, the question and the name, type, class, TTL and RDATA of every record of all three sections in order, and ends at the last octet |
| `FixtureMessage.ParseReplyReads` | bench/internal/dnswire/dnswire.go:93-108 | `ParseReply` on a fixture message gives the fixture id, the rcode and the answer count, with TC and AD clear, for every rcode below 16 |
| `DnsWire.ParseReplyIs` | bench/internal/dnswire/dnswire.go:93-108 | for every octet string: an error iff it is short or the QR bit is clear, and otherwise id, count, the low four bits as rcode, bit 9 as TC and bit 5 as AD |
| `DnsWire.AppendName` | bench/internal/dnswire/dnswire.go:69-78 | the loop appends the length-prefixed labels and the root, for any text; lengths truncate to an octet |
| `DnsWire.SpelledLabels` | bench/internal/dnswire/dnswire.go:69-78 | the labels it splits a name into are those the name spells, with or without the final dot |
| `DnsWire.TwoDots` | bench/internal/dnswire/dnswire.go:69-78 | an input where the two codecs differ: of `..` one dot is dropped here and both by `wire_name` |
| `DnsWire.AppendOpt` | bench/internal/dnswire/dnswire.go:54-65 | the bytes appended for EDNS are the OPT record with the payload size as class and DO as its flag (RFC 6891 section 6.1.2) |
| `DnsWire.Query` | bench/internal/dnswire/dnswire.go:37-67 | the query is its header, one question and the OPT record iff a size was given |
| `DnsWire.Question` | bench/internal/dnswire/dnswire.go:112-141 | on every octet string the loop returns the name text and type its grammar gives, or the error the code returns |
| `DnsWire.QuestionEnd` | bench/internal/dnswire/dnswire.go:185-209 | on every octet string the loop, which steps over labels unchecked, stops where the same grammar ends, or fails |
| `DnsWire.LoopsAgree` | bench/internal/dnswire/dnswire.go:112-209 | both loops succeed on the same messages, exactly those that hold an encoded name and four octets more, and stop at the same offset; when they fail, for the same reason but for the label one of them does not check |
| `DnsWire.PutUint16` | bench/internal/dnswire/dnswire.go:153-157 | two octets of the buffer are overwritten big-endian, in place, and nothing else |
| `DnsWire.PatchBuffer` | bench/internal/dnswire/dnswire.go:153-157 | the five patched fields make the header of a one-question reply, in the buffer itself; id and everything after are kept |
| `DnsWire.FreshReply` | bench/internal/dnswire/dnswire.go:150-157 | a fresh buffer holds the query up to the end of its question under the new header |
| `DnsWire.AnswerA` | bench/internal/dnswire/dnswire.go:145-166 | a fresh buffer holds a new header over the query's question and one A record, or the error of the question; the query buffer is untouched |
| `DnsWire.AnswerEmpty` | bench/internal/dnswire/dnswire.go:170-183 | a fresh buffer holds a new header over the query's question and nothing else, or the error; the query buffer is untouched |
| `AnswerLaws.QuestionOfQuery` | bench/internal/dnswire/dnswire.go:37-141 | `Question` undoes `query`: it returns each label followed by a dot, and the type, for every sequence of valid labels, with or without OPT |
| `AnswerLaws.RequeryAsksTheSame` | bench/internal/dnswire/dnswire.go:37-141 | querying the text `Question` returned asks the same question again; the root is the empty text |
| `AnswerLaws.QuestionReadIs` | bench/internal/dnswire/dnswire.go:112-209 | a reader of RFC 1035 sees the question both loops find, and stops where they stop |
| `AnswerLaws.QueryReads` | bench/internal/dnswire/dnswire.go:37-67 | a reader of RFC 1035 walks the query to its last octet: one question, and the OPT record iff a size was given |
| `AnswerLaws.ReplyReparses` | bench/internal/dnswire/dnswire.go:145-209 | every answer re-parses to the query's own id, name, type and question end, as a plain NOERROR reply with the count announced |
| `AnswerLaws.PointerResolves` | bench/internal/dnswire/dnswire.go:158-159 | the owner pointer 0xC00C resolves to the name at offset 12 (RFC 1035 section 4.1.4) |
| `AnswerLaws.AnswerAReads` | bench/internal/dnswire/dnswire.go:145-166 | a reader walks the reply to its last octet and sees the question and one A record owned by the question's name |
| `AnswerLaws.AnswerEmptyReads` | bench/internal/dnswire/dnswire.go:170-183 | a reader sees the question and no record |
| `MockAnswer.Answer` | bench/cmd/rrlexp/mock.go:299-314 | the append loop yields as many records as asked for, at least one, and announces the asked count truncated to 16 bits; the query buffer is untouched |
| `AnswerLaws.ReplyWalk` | bench/cmd/rrlexp/mock.go:299-314 | whatever count is announced over n records, the walk yields the announced number of them, or fails when more are announced than present |
| `AnswerLaws.AnswerReads` | bench/cmd/rrlexp/mock.go:299-314 | for every well-formed query and 1 to 65535 records: length, ANCOUNT and the records walked agree, the walk ends at the last octet, and record i is an A record of the question's name with the TTL and address 203.0.113.(1 + i mod 250) |
| `AnswerLaws.AddressesDiffer` | bench/cmd/rrlexp/mock.go:304-311 | no two of the first 250 records have one address |
| `AnswerLaws.CountsAgreeIff` | bench/cmd/rrlexp/mock.go:299-314 | the walk ends at the last octet iff 1 <= records <= 65535, or records is below 1 and truncates to 1 |
| `AnswerLaws.NoneAnnounced` | bench/cmd/rrlexp/mock.go:299-314 | inputs where they do not: asked for 0 or for 65536 records, the answer announces none and the walk stops before those present |
| `Framing.Frame` | bench/cmd/rrlexp/client.go:447-452 | the frame is the message behind its length truncated to 16 bits |
| `Framing.ReadFull` | bench/cmd/mockdns/main.go:104-114 | the buffer is filled with what arrives, or the stream ended first; nothing beyond it is consumed |
| `Framing.ReadMessage` | bench/cmd/mockdns/main.go:76-86 | one whole frame is consumed and its message returned, or the stream ends inside or before it |
| `Framing.ReadMessages` | bench/cmd/rrlexp/client.go:272-292 | the reading loop yields exactly the whole frames of the stream, however it is split into reads |
| `Framing.DeframeUndoesFrame` | bench/cmd/rrlexp/client.go:272-292 | messages of at most 65535 octets come back exactly, in order, before whatever follows them |
| `Framing.FrameSurvivesIff` | bench/cmd/rrlexp/client.go:447-452 | a framed message is read back as itself iff it is at most 65535 octets long |
| `Framing.OneOctetTooMany` | bench/cmd/rrlexp/client.go:447-452 | a message of 65536 octets is read back as an empty one, followed by whatever its own octets frame |
| `Framing.DeframeIsMonotone` | bench/cmd/rrlexp/client.go:272-292 | messages delivered from the front of a stream are never changed by what arrives later |
| `MockDns.Answer` | bench/cmd/mockdns/main.go:116-129 | an error iff the query has no question; else a fresh reply whose walk ends at its last octet and shows the query's id and question, and one A record 93.184.216.34 with the TTL iff the type asked is A, nothing otherwise |
| `MockDns.ReplyAnswers` | bench/cmd/mockdns/main.go:116-129 | the same of the specified reply, for every query with a question |
| `MockDns.ServeOne` | bench/cmd/mockdns/main.go:77-97 | one turn consumes one whole query and has its framed reply ready, or the connection ends |
| `MockDns.ServeConn` | bench/cmd/mockdns/main.go:76-99 | what the connection loop writes is the framed replies to the whole queries received, up to the first unanswerable one or the first write that fails |
| `MockDns.NothingAfterUnanswerable` | bench/cmd/mockdns/main.go:76-99 | the queries before the first without a question are each answered, and none from it on |
| `MockDns.ExchangeInOrder` | bench/cmd/mockdns/main.go:70-129 | a client gets one reply per query in the order asked, each with its query's id and question and the answer to it |
| `MockState.Mock.Listen` | bench/cmd/rrlexp/mock.go:73-101 | both sockets, and the address they are bound to, are installed iff both binds succeed |
| `MockState.FirstListenPicksThePort` | bench/cmd/rrlexp/mock.go:51-101 | after any number of failed tries, the first that succeeds gives a new mock the port picked and both sockets |
| `MockState.Mock.ReleaseHeld` | bench/cmd/rrlexp/mock.go:191-200 | both holds are gone, nothing else changes |
| `MockState.Mock.Close` | bench/cmd/rrlexp/mock.go:179-188 | the listener is cleared and both holds released; the closed UDP socket stays in the field |
| `MockState.Mock.Fail` | bench/cmd/rrlexp/mock.go:114-138 | the new state and the result for every mode and every way the two binds can end |
| `MockState.Mock.Restore` | bench/cmd/rrlexp/mock.go:165-175 | the new state and the result, for every mode it is found in and every way the binds can end |
| `MockState.AlternatingCallsLeaveNoHold` | bench/cmd/rrlexp/mock.go:114-175 | over every sequence of calls in which `fail` finds the mock up, no hold outlives the refusal, even when calls fail halfway |
| `MockState.AddressIsKept` | bench/cmd/rrlexp/mock.go:73-175 | over every sequence of calls the address, once picked, never changes |
| `MockState.BlackholingARefusedMockStrandsIt` | bench/cmd/rrlexp/mock.go:114-175 | a run that shows the alternation is needed: refused, then blackholed, then restored leaves the mode up and both ports held |
| `Outage.NoAnswerOnceCleared` | bench/cmd/rrlexp/mock.go:179-272 | in every interleaved run, once a listener is cleared no query read later on a connection it accepted is answered, not even after `restore` |
| `Outage.EveryAnswerWasAsked` | bench/cmd/rrlexp/mock.go:237-272 | every answer in a run is to a query that connection read before |
| `Outage.CallsLeaveTheirState` | bench/cmd/rrlexp/mock.go:73-200 | in every interleaved alternating run: after a successful refusal both ports are held and there is no listener, after a successful restore no hold remains, and the address is the first one |
| `Outage.FailStepsAreFail` | bench/cmd/rrlexp/mock.go:114-138 | the interleaved steps of `fail` add up to what the method `Mock.Fail` is proved to do |
| `Outage.RestoreStepsAreRestore` | bench/cmd/rrlexp/mock.go:165-175 | and those of `restore` to what `Mock.Restore` is proved to do |
| `Outage.UpAnswers` | bench/cmd/rrlexp/mock.go:237-272 | a mock that is up and listening answers a connection it accepts: accept, read, three checks and a reply, all enabled |
| `Outage.AnsweredOnceRestored` | bench/cmd/rrlexp/mock.go:165-175 | after every outage of an alternating run that ends in fresh sockets, a connection accepted on the new listener has its query answered |
| `Outage.DroppedThenAnswered` | bench/cmd/rrlexp/mock.go:237-272 | from every blackholed world: a connection's query is read and dropped, the connection stays, and its next query is answered once the mock is back |
| `Outage.StaysOpen` | bench/cmd/rrlexp/mock.go:237-272 | in every interleaving, through a blackhole and back, the mock never closes a connection of its own listener |
| `Outage.QueryReadWhileDownNeedsRestore` | bench/cmd/rrlexp/mock.go:237-272 | in every interleaved alternating run, a query read while the mock was down is answered only if the mock was brought back between the read and the answer (stated at 20-22) |
| `Outage.CanBeAnsweredIff` | bench/cmd/rrlexp/mock.go:237-272 | from every reachable world with the controller at rest, a query read and not yet looked at is answered on some way on iff its listener is still the mock's |
| `Outage.AnswerDuringOutage` | bench/cmd/rrlexp/mock.go:249-269 | a query past its checks when the outage begins is answered during it: a run that does so, from every mock that is up |
| `Datagrams.ReadWhileDownNeedsRestore` | bench/cmd/rrlexp/mock.go:202-224 | in every interleaved run, a datagram read while the mock was down is answered only if the mock was brought back between the read and the answer |
| `Datagrams.CanBeAnsweredIff` | bench/cmd/rrlexp/mock.go:202-224 | from every reachable world with the controller at rest, up or down, a datagram not answered yet is answered on some way on iff it is still in hand and its socket is open |
| `Datagrams.NoAnswerWithoutRestore` | bench/cmd/rrlexp/mock.go:202-224 | from every world in which the mock is down and the datagram not past its first look, no way on that never brings the mock back answers it |
| `Datagrams.LateAnswer` | bench/cmd/rrlexp/mock.go:202-224 | and that does happen: a run in which a datagram read while blackholed is looked at after the restore, and answered |
| `Datagrams.UpSends` | bench/cmd/rrlexp/mock.go:202-224 | a mock that is up answers a datagram it has in hand, at whatever point, if the socket is still open |
| `Datagrams.RefusedMeansClosed` | bench/cmd/rrlexp/mock.go:114-200 | in every interleaved alternating run, a refused mock has no socket open to read a datagram from or answer one |
| `Datagrams.NothingDroppedOnceRestored` | bench/cmd/rrlexp/mock.go:163-175 | `restore` sets the mode before it opens the sockets: in every interleaved alternating run, no datagram read on the sockets it opened is turned away until `fail` is called again |
| `UnitEnv.AddFields` | bench/internal/unitenv/unitenv.go:49-53 | the inner loop adds the fields in order up to the first one refused |
| `UnitEnv.Parse` | bench/internal/unitenv/unitenv.go:25-56 | the loop computes the run of the one-bit machine over the lines, or its first error |
| `UnitEnvLaws.MachineSwallows` | bench/internal/unitenv/unitenv.go:36-42 | the bit equals its closed form: a line is swallowed iff the nearest earlier non-comment line ends in an odd run of backslashes, one trailing carriage return aside |
| `UnitEnvLaws.MachineAt` | bench/internal/unitenv/unitenv.go:25-56 | after any number of lines the machine holds exactly the fields, section and bit of the closed form, or has stopped because a live line is unreadable or the assignments are not valid and distinct |
| `UnitEnvLaws.ParseReturnsExactly` | bench/internal/unitenv/unitenv.go:25-94 | `Parse` succeeds with an environment iff every live line is readable and the environment is exactly the fields of the live Environment= lines, in order, valid and with pairwise distinct keys |
| `UnitPrinter.ParseUndoesPrint` | bench/internal/unitenv/unitenv.go:25-94 | `Parse` undoes writing: a `[Service]` section of Environment= lines, one or more settings each, with blanks wherever systemd allows them, good names and plain values, is read as exactly those settings in order if their names differ, and refused otherwise |
| `UnitPrinter.CommentsChangeNothing` | bench/internal/unitenv/unitenv.go:32-40 | a line starting with `#` or `;` put anywhere, indented or not, even into a continued line, changes nothing |
| `UnitPrinter.ContinuesIs` | bench/internal/unitenv/unitenv.go:96-102 | a line goes on iff it ends in an odd number of backslashes, one carriage return aside |
| `UnitPrinter.NoSectionIsError` | bench/internal/unitenv/unitenv.go:66-80 | a line of settings before any section is an error |
| `UnitPrinter.OtherSectionIsError` | bench/internal/unitenv/unitenv.go:66-80 | and so is one under any other section |
| `UnitPrinter.OutsideServiceIsError` | bench/internal/unitenv/unitenv.go:66-80 | and any one that is no continuation and not in `[Service]`, wherever it stands |
| `UnitPrinter.RefusedValueIsError` | bench/internal/unitenv/unitenv.go:66-80 | a value with a quote, a backslash or a specifier in it, or with nothing in it, is an error |
| `UnitPrinter.OtherDirectiveIsError` | bench/internal/unitenv/unitenv.go:66-80 | any other directive with `Environment` in its name is an error |
| `UnitPrinter.ShownIsAssignment` | bench/internal/unitenv/unitenv.go:84-114 | a name of letters, digits and underscores, no digit first, then `=` and any value, is an assignment to that name |
| `UnitPrinter.AssignmentIsShown` | bench/internal/unitenv/unitenv.go:84-114 | and nothing else is an assignment |
| `UnitEnvLaws.ReadLineIsNotContinued` | bench/internal/unitenv/unitenv.go:32-40 | an Environment= line that is read is never continued |
| `UnitEnvLaws.AddAllIs` | bench/internal/unitenv/unitenv.go:84-94 | adding fields succeeds iff they are valid assignments to names not set before, and then appends them in order |
| `UnitEnv.Shipped` | bench/internal/unitenv/unitenv.go:122-133 | the loop returns the unit's assignments and then the inherited ones it keeps |
| `UnitEnvLaws.UnitSettingsWin` | bench/internal/unitenv/unitenv.go:115-133 | the last entry for every name the unit sets is the unit's own, and no allocator setting is inherited |
| `UnitEnvLaws.OthersAreInherited` | bench/internal/unitenv/unitenv.go:122-133 | every other inherited entry is kept |
| `UnitEnvLaws.ShippedEntryByEntry` | bench/internal/unitenv/unitenv.go:122-133 | one more inherited entry is kept, at the end, iff it starts with none of the three allocator prefixes and the unit does not set its name |
| `QueryNames.ClientNameIsInjective` | bench/cmd/rrlexp/main.go:154-159 | a unique name determines the worker and the number |
| `QueryNames.ClientNameSpelled` | bench/cmd/rrlexp/main.go:154-159 | worker 12 with number 345 asks `q12-345.loss.rrl.test`, and a fixed client `cached.loss.rrl.test` |
| `QueryNames.LoadNameIsInjective` | bench/cmd/loadgen/main.go:258 | a unique name determines client, slot and count |
| `QueryNames.LoadNameSpelled` | bench/cmd/loadgen/main.go:258 | run 7, client 80, slot 9 and count 10 ask `q-7-80-9-10.bench.test` |
| `DohClient.Interleave` | bench/cmd/rrlexp/doh.go:38-53 | the locked calls on the one counter, in whatever order they fall, yield exactly the numbers and the final count of the interleaved machine |
| `DohClient.NamesNeverRepeat` | bench/cmd/rrlexp/doh.go:189-214 | under every interleaving of a client's workers no two queries ask the same unique name |
| `DohClient.NumberIsAddsBefore` | bench/cmd/rrlexp/doh.go:205-206 | under every interleaving, the number a query is asked with is the number of adds before its load, whosever they are |
| `DohClient.NumbersRepeatIff` | bench/cmd/rrlexp/doh.go:205-206 | under every interleaving, two queries of a client have the same number iff no worker adds between their loads |
| `DohClient.NumbersMayRepeat` | bench/cmd/rrlexp/doh.go:205-206 | two workers that add before either loads read the same number |
| `LoadGen.NamesNeverRepeat` | bench/cmd/loadgen/main.go:243-260 | under every interleaving no two queries of a run ask the same unique name |
| `LoadGen.PacingHolds` | bench/cmd/loadgen/main.go:205-255 | for 1 <= rate <= 10^9 and every interleaving no slot is shared, and by time t at most (t - paceFrom) / interval + 1 queries have started |
| `LoadGen.TurnsInFirstSecond` | bench/cmd/loadgen/main.go:205-210 | the turns due within the first second are exactly `rate` and the ceiling of what the truncated interval leaves over, divided by that interval; none are left over iff the rate divides 10^9 |
| `LoadGen.RatesThatOverrun` | bench/cmd/loadgen/main.go:205-210 | 3 turns too many at 60000 a second, 400 million at 600 million |
| `Pacing.PaceAt` | bench/cmd/rrlexp/client.go:517-534 | after k ticks exactly floor(k * rate / 1000) have been sent with a carry in [0, 1), or the first refused send ended it |
| `Pacing.EveryStretchIsFair` | bench/cmd/rrlexp/client.go:517-534 | over any stretch of ticks what is sent is the stretch's own due, or one more |
| `Pacing.WholeSecondsAreExact` | bench/cmd/rrlexp/client.go:517-534 | in a whole number of seconds exactly the rate is sent |
| `Recovery.Recovered` | bench/cmd/rrlexp/arms_upstream.go:328-368 | the single pass meets the declarative meaning: never lost iff no unhealthy judged window began before `upAt` less 200 ms; else not within the arm if no healthy tail of judged windows reaches its end, before the return if the longest one opens by `upAt` plus 200 ms, and within the whole second nearest its distance from `upAt` if later |
| `Recovery.KindIsDetermined` | bench/cmd/rrlexp/arms_upstream.go:328-368 | only one kind of verdict has that meaning |
| `Recovery.WindowMeans` | bench/cmd/rrlexp/arms_upstream.go:328-349 | judged, healthy and of the outage in the code's terms: the last readable sample before, something offered, 95%, and 200 ms of slack |
| `Recovery.PassIsDetermined` | bench/cmd/rrlexp/arms_upstream.go:328-356 | only one value of `at` meets that meaning |
| `Recovery.CameBackIffLastHealthy` | bench/cmd/rrlexp/arms_upstream.go:328-368 | a loss is reported as not made good within the arm iff its last judged window was unhealthy |
| `Recovery.ReportedTailIsHealthy` | bench/cmd/rrlexp/arms_upstream.go:321-356 | the reported time lies after `downAt` less 200 ms, and every judged window from there on answered 95% |
| `Recovery.RoundToSecond` | bench/cmd/rrlexp/arms_upstream.go:358-368 | the nearest whole second, halves away from zero |

## Left out

- The resolver itself (the Odin packages under `src/`), its configuration and its documentation.
- The scenario functions of the fixture generator, `emit`, `ds` and `ds_text`: fixed data and printing over the functions modelled here. `nsec_rdata` is a name followed by a type bit map, both modelled.
- Ed25519, SHA-1 and SHA-256: the first two are function parameters, the third appears only in `ds` and in key derivation.
- Text of DNS names is a sequence of octets and lowercasing is ASCII; a label's length is its octet count. The unit parser's text is Unicode scalars, so invalid UTF-8 is not modelled.
- Library calls (`sorted`, `split`, `rstrip`, `strings.*`, `fmt.Sprintf("%d")`) are functions. The walk over `sorted(windows)` is an ascending walk over all 256 windows that skips those absent.
- RFC 1035's limit of 255 octets on a whole name: neither codec checks it.
- SigningLaws.SameInputIffSameFields: for signers and owners without an empty label inside, which `wire_name` does not refuse and no reader can parse; `Signing.Sign` itself is proved without that condition.
- FixtureMessage.MessageReads: for names without an empty label inside and rcodes below 16, as section 4.1 of RFC 1035 has them; `FixtureMessage.Build` takes any rcode that fits.
- Nsec3Ring.ChainIsOneRing: for a zone name without an empty label inside and nodes whose hashes differ; two nodes of one hash have no ring to speak of.
- AnswerLaws.QuestionOfQuery: for labels of 1 to 63 octets without a dot; `appendName` checks neither, and what it then writes is given by `DnsWire.AppendName`.
- MockDns.ExchangeInOrder: for queries the mock has an answer to, with queries and replies of at most 65535 octets and writes that succeed; `MockDns.ServeConn` lets any write fail, but not halfway through a reply. Delays are not modelled.
- Outage.QueryReadWhileDownNeedsRestore: for runs in which `fail` finds the mock up, as the harness's schedule calls it; the two checks of `serveConn` look at the mode apart, and a second `fail` between them is outside this result.
- Datagrams.ReadWhileDownNeedsRestore: that nothing is read from or written to a closed socket is the kernel's doing and part of the model; the one reader per socket is modelled as any number of datagrams in hand.
- LoadGen.PacingHolds: a started query is a step at or after its due time; the sleep, the deadline and what the query meets are not modelled.
- Pacing.PaceAt: exact reals in place of floating point; the number of quanta is a parameter in place of the clock, and `send` is one that refuses after some number of queries.
- Recovery.Recovered: the 95% threshold is 19 in 20 exactly; judged windows end at positive times, since 0 is the code's mark for none; the verdict is a value, not its text, and the missed-scrape test `parked` is left out.
- Go's fixed-width counters (`int64` sequence numbers, `uint64` counts, nanosecond durations) are unbounded; the octet and 16-bit truncations of the codec and the framing are modelled.
- Go slice aliasing: a query handed to an answer builder and the reply it returns are arrays, and the one is proved untouched and the other fresh; elsewhere messages are values, and only the buffers patched or filled in place are arrays.
- The text of error messages; errors are told apart by what they report. `ParseReply` failures inside the reading loop, connection-close accounting, `tracker`, `record` and the statistics are left out as easy.
- Sockets, TLS, HTTP, processes, sampling and clocks: they enter as events, or as parameters for what the kernel answered.
