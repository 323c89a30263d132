# The mDNS engine and the television remote

This project models, in Dafny, the mDNS responder, querier and browser under
`managed_components/espressif__mdns` (RFC 6762 and RFC 6763, on names as in section 4.1.4 of RFC 1035) and the
connection loop of the remote in `src/GoogleIP_Remote.cpp`, and proves properties of the model.

`dafny verify dfyconfig.toml` checks everything.

## How it is laid out

Each part has a file that says what the code does as functions over the whole state, files that prove what follows
for every input or every run, and a file with the loops and the fields changed in place, each method proved to do
what its function says.

| part | meaning | results | in place |
|---|---|---|---|
| names | NameReader, NameWriter | NameRoundTrip, PacketNames, NameLimits, NameShapes, NameFailures | NameReader (class Name), NameWriter (class Packet) |
| packets | RecordWriter, PacketReader | RecordWriter, RecordFits, PacketReader, PacketStops, PacketRoundTrip, PacketSent, HostProbe | RecordMethods, PacketReader |
| transmit list and action queue | TxQueue | TxQueue, TxStranding | Engine |
| probing, announcing, duplicates | Responder | ResponderPackets, ResponderEffects, ResponderInv, ResponderSteps, ResponderRemoval, ResponderAll, ResponderRuns, ResponderAsks, ResponderComplete, ResponderLists, ResponderProgress, ResponderPace | EngineParts, Engine (class Mdns) |
| TXT data, ties, new names | TxtCodec, TieBreak, Rename | the same, TxtWire, TieOrder, RenameSuffix | as the meaning |
| answering a query | Answers | AnswerResults, AnswerMeaning | AnswerMethods (classes Query and Response) |
| subtypes of a service | Subtypes | Subtypes | Subtypes (class ServiceSubtypes) |
| one-shot searches | Searches | Searches, SearchAnswers, SearchSteps | Querier (class Engine) |
| browse cache | Browse | Browse, BrowseAnswers, BrowseRecords | Browser (class Results) |
| television remote | Remote | Remote | Remote (class GoogleTvRemote) |

## What is assumed

- Allocation succeeds, and the address of a freed packet or search is not used again while an action that names it
  is waiting: packets and searches have identities that are never reused.
- The millisecond clock does not go back and does not wrap 32 bits.
- The service lock makes a timer tick and a service-task action atomic with respect to each other, except for the
  action queue itself: `xQueueReceive` is called outside the lock. TickKeepsIff gives the exact outcomes of posting
  that strand no packet, and TxStranding what the others do. Runs of the responder use ticks during which the queue
  is only filled.
- A host name is set when a query is answered (queries are dropped otherwise, mdns_receive.c:649), service types are not
  empty, and a pointer the device browses for goes to the browse, not to the known answers.
- Three interface slots, an action queue of 16 places, packets of 1460 bytes, reverse lookups off.
- The network is a parameter: whether an interface could be started, which records arrive, whether posting an
  action succeeds, how a connection attempt or a read ends.
- A name buffer is a sequence of bytes without a NUL (what `strlen` sees). `memcmp` past the end of the packet
  buffer counts as a difference: the reader would refuse that candidate in any case.

## Where the code does less than its documentation or a reader may expect

Each of these is a lemma, with the exact condition beside it or in it.

- A compressed name does not always read back. `append_fqdn` accepts a candidate although the reader dropped one of
  its labels (a "_sub" label, or a fifth one). RoundTripFollowed and RoundTrip give the exact condition;
  SubtypeTakenForInstance and LongerNameTaken give packets for which it fails.
- Removing a service drops the first question of its type from a probe, which may be that of another instance. The
  interface then goes on probing an instance it does not ask for (RemovedIsAskedFor). RemovalCompleteIff and
  EveryProbeIsComplete give the exact condition, for one removal and for whole runs.
- The merge of two probe lists exceeds its allocation when an interface is not probing and still has a list
  (MergeFitsIff). No run gets there in which only interfaces that are up are made to probe (EveryCalmRun); a conflict
  on an interface that is down, followed by disabling and enabling it, always does (ConflictWhileDown).
- A probing interface always has a packet that claims what it probes if it is up (FromTheStart), not if it is down
  (DownLosesItsProbe).
- A post that succeeds after one that failed, which takes an action taken out of a full queue in between, can strand
  packets for good (LatePostStrands, StuckForGood).
- Two hosts do not come to opposite verdicts on TXT data when both data are one byte long and one of them has an
  item without text (TxtTieBreak).
- Data of simultaneous probes are compared by their length first, where section 8.2 of RFC 6762 lets the length
  decide only when one is a prefix of the other (LaterDataWins).
- A known answer for a service that goes by the default name drops the question for its whole type, however little
  of its time is left (OneKnownHidesAll); SuppressedIff gives the exact rule.
- A question of a type no service has, asked for a service, is answered by a packet without answers
  (EmptyResponseIff), and a question for everything about a host leaves out the first delegated one
  (FirstHostIsLeftOut).
- Replacing the subtypes of a service by a list that repeats one fails, and subtypes that come only after the repeated
  one are gone without a goodbye (LostSilentlyIff, RepeatedItemLosesRest).
- An SRV record that changes the port but not the host does not reach the browse cache (SrvIsHeard). In a one-shot
  search for services an address that comes before the SRV record is lost (AddressIsLost, AddressNeedsHost).
- Renaming does not look at the 63 bytes of a label: a name of 62 or 63 bytes is too long for one after its first
  conflict (FitsLabelIff, ShortNamesFit).
- A record that does not fit is not counted, but the part already written stays in the packet (PartOfARecordStays). A
  question whose type or class does not fit is counted all the same (QuestionCountedIff).
- One TXT part that runs past the end of the data loses the items before it, too (OverrunSpoils).
- A record of a packet for several browses changes only the cache of the first (OnlyTheFirstChanges).
- An address that comes in a packet before any record of the browse, for a host not known yet, is lost
  (EarlyAddressIsLost).
- The remote keeps the bytes of an unfinished message over a new connection, and then takes no message of that
  connection right (NextConnection, UnfinishedStays).
- `mdns_query` and `mdns_query_async_new` keep the result limit in 8 bits: 256 means no limit (NewTells).
- The test of the remote that a message was sent compares a signed result with an unsigned size, so a negative
  result counts as success (ModeAfter).

## Model

| member | source | states |
|---|---|---|
| NameReader.WalkProgress | managed_components/espressif__mdns/mdns_utils.c:20-80 | on every byte string and offset a name that is read ends past its start and at most one byte past the packet; one that ends in a zero byte ends inside it |
| NameReader.ReadFqdnImpl | managed_components/espressif__mdns/mdns_utils.c:20-80 | the reader ends, reads only the first `bound` bytes and writes labels only inside their buffers, and stores exactly the parts the walk over labels and backward pointers gives |
| NameReader.FollowPointer | managed_components/espressif__mdns/mdns_utils.c:58-77 | a pointer is followed only to before the segment it is in, and at most 16 deep, and the name goes on where the pointer ends |
| NameReader.ReadLabel | managed_components/espressif__mdns/mdns_utils.c:26-57 | a label is at most 63 bytes, is refused when it crosses the end, and is taken as the string up to its first NUL |
| NameReader.Name.TakeLabel | managed_components/espressif__mdns/mdns_utils.c:31-57 | the rules that join labels to the host, mark a subtype, or fill the next of the four parts |
| NameReader.ParseFqdn | managed_components/espressif__mdns/mdns_utils.c:88-120 | the parts read are moved to host, service, protocol and domain by their number, and the domain is checked |
| NameReader.FoldAppend | managed_components/espressif__mdns/mdns_utils.c:20-80 | reading labels one after the other is the same as reading a name in two pieces |
| NameWriter.Packet.AppendFqdn | managed_components/espressif__mdns/mdns_send.c:678-739 | the name written: labels in full until the first earlier match of what is left, then a pointer to it, else a zero byte; the returned length |
| NameWriter.Packet.FindSuffix | managed_components/espressif__mdns/mdns_send.c:688-731 | the match taken is the first place in the written bytes whose first label is the same bytes and whose whole name is the same up to case |
| NameShapes.PointsToFirst | managed_components/espressif__mdns/mdns_send.c:687-738 | what is left of a name is written as two bytes that point to the first place of the packet where its next label stands byte for byte and a name of as many parts, the same up to case, is read; with no such place its next label is written; and nothing when there is no room |
| NameWriter.Packet.AppendString | managed_components/espressif__mdns/mdns_send.c:103-113 | a label goes in with its length, or nothing is changed when it does not fit |
| NameWriter.Packet.AppendU16 | managed_components/espressif__mdns/mdns_utils.c:279-287 | two bytes, high byte first, or nothing when they do not fit |
| NameRoundTrip.FqdnGrowth | managed_components/espressif__mdns/mdns_send.c:678-739 | for labels of 1 to 63 bytes the returned length is the growth of the packet even when the name does not fit; earlier bytes and bytes past the index are untouched |
| NameRoundTrip.RoomIsEnough | managed_components/espressif__mdns/mdns_send.c:678-739 | room for the name without compression is enough for it |
| NameRoundTrip.RoundTripFollowed | managed_components/espressif__mdns/mdns_send.c:678-739 | every name that fits reads back at the old index, up to case, and ends at the new one, if and only if no pointer was needed or the candidate, followed from behind the pointer, begins before the name, leaves a hop, and has the labels that were left |
| NameRoundTrip.RunsOff | managed_components/espressif__mdns/mdns_send.c:678-739 | a candidate that reads to the end of the bytes written without a zero byte is never read back |
| NameRoundTrip.RoundTrip | managed_components/espressif__mdns/mdns_send.c:678-739 | of a candidate that ends inside the bytes written, the condition is that it begins before the name, leaves a hop, and had all its labels kept by the reader |
| NameRoundTrip.ReadsTheSameAfterMoreBytes | managed_components/espressif__mdns/mdns_utils.c:20-80 | a name that ended in a zero byte reads the same whatever is written after it |
| NameRoundTrip.HopsBound | managed_components/espressif__mdns/mdns_utils.c:58-77 | at most 16 pointers are followed, counting those before |
| PacketNames.FewerPointersThanLabels | managed_components/espressif__mdns/mdns_send.c:687-738 | in a name made by the sender every pointer is followed by a label, so it has fewer pointers than labels and the limit of 16 hops is not reached |
| PacketNames.SentIsAllowed | managed_components/espressif__mdns/mdns_send.c:687-738 | a name of the shapes the sender builds that fits and whose match, if there is one, is at a label start takes a pointer only to a label of an earlier name that the reader keeps whole |
| PacketNames.SentStepKeeps | managed_components/espressif__mdns/mdns_send.c:678-739 | writing such a name, or other bytes, or a field outside the names, keeps every earlier name readable and every label start that of a name with at most four labels and no "_sub" |
| PacketNames.SentRunIsAllowed | managed_components/espressif__mdns/mdns_send.c:678-739 | so does a run of them: every pointer goes to an earlier label, and nothing more is asked of its target |
| PacketNames.StepKeepsInv | managed_components/espressif__mdns/mdns_send.c:678-739 | writing a name that reads back at once, or other bytes, or a field that no name is read from, keeps every earlier name readable |
| PacketNames.EveryNameReadsBack | managed_components/espressif__mdns/mdns_send.c:678-739 | at the end of a packet filled by such steps every name, in order, wherever its match was, reads back with its labels and ends where its writing ended |
| PacketNames.EverySentNameReadsBack | managed_components/espressif__mdns/mdns_send.c:678-739 | in particular names of the shapes the sender builds whose matches are at label starts; each is parsed into the parts it was sent with, up to case |
| PacketNames.ParsesAsSent | managed_components/espressif__mdns/mdns_utils.c:88-120 | a name of the shapes host.local, _service._proto.local and instance._service._proto.local that reads back is parsed into its parts, valid and not a subtype |
| NameLimits.ReadWhole | managed_components/espressif__mdns/mdns_utils.c:31-57 | the reader kept every label of a name of up to four parts if and only if none is "_sub" and there are at most four |
| NameShapes.SubtypeShape | managed_components/espressif__mdns/mdns_utils.c:31-57 | five labels with "_sub" second are a subtype of a service: the mark is set and the label taken out |
| NameShapes.DottedHost | managed_components/espressif__mdns/mdns_utils.c:31-57 | a host name of two labels in a known domain is joined by a dot, cut at 64 bytes |
| NameShapes.DomainDecides | managed_components/espressif__mdns/mdns_utils.c:88-120 | a name in four parts is valid exactly when its domain is "local" or "arpa", in any case |
| NameShapes.FifthSpoils | managed_components/espressif__mdns/mdns_utils.c:26-57 | a fifth part makes a name invalid and changes nothing else |
| NameShapes.NothingThere | managed_components/espressif__mdns/mdns_utils.c:26-77 | a length byte from 64 to 191, a label past the end, half a pointer, a pointer that does not lead back, or a seventeenth pointer is no name |
| NameShapes.EndOfPacket | managed_components/espressif__mdns/mdns_utils.c:26-80 | the end of the packet ends a name like a zero byte does, one byte past the end |
| NameFailures.SubtypeTakenForInstance | managed_components/espressif__mdns/mdns_send.c:1540-1579 | for every service with printable, different labels: in the goodbye for a subtype with the instance's own name, the data that should name the instance read as the subtype's name |
| NameFailures.LongerNameTaken | managed_components/espressif__mdns/mdns_send.c:692-722 | for every such service: once a TXT record whose value spells its name with a further label is in the packet, the pointer written for its name goes into that value and reads as the longer name |
| RecordWriter.RecordGrows | managed_components/espressif__mdns/mdns_send.c:742-1191 | a record writer keeps the index within 1460 and writes only between the old and the new index, even when it runs out of room part way |
| RecordWriter.EveryPacketStaysInside | managed_components/espressif__mdns/mdns_send.c:1340-1389 | for every list of questions and answers the whole packet stays inside its 1460 bytes, nothing is written past the index, and the header keeps its identifier and flags |
| RecordWriter.RecordIsFramed | managed_components/espressif__mdns/mdns_send.c:792-826 | the length set for the data of a counted record leads from the end of its name to the end of the record, and the returned length is the growth of the packet |
| RecordWriter.SectionIsFramed | managed_components/espressif__mdns/mdns_send.c:1363-1384 | when all records of a section were counted, the lengths lead from its first byte through every record to its end |
| PacketRoundTrip.EveryRecordIsFramed | managed_components/espressif__mdns/mdns_send.c:1340-1389 | when all records of a message were counted, the lengths lead from the end of its questions through every record of all sections to the end of the packet, whatever its names read as |
| RecordWriter.PartOfARecordStays | managed_components/espressif__mdns/mdns_send.c:809-818 | a record whose name fits and whose type does not is not counted, but the index has moved |
| RecordFits.CountedIff | managed_components/espressif__mdns/mdns_send.c:792-1191 | a record is counted exactly when its name fits or need not be looked at, its fixed fields stay short of byte 1460 and its data fit: addresses to the last byte, TXT items to the last but one, SRV data with a host name that is not empty |
| RecordFits.QuestionCountedIff | managed_components/espressif__mdns/mdns_send.c:745-780 | a question is counted exactly when its name fits, whether or not its type and class do |
| RecordMethods.WriteType | managed_components/espressif__mdns/mdns_send.c:61-93 | type, class, time to live and a zero length, or nothing when ten bytes do not fit; that the class is 0x8001 with the flush bit and 0x0001 without is in PacketRoundTrip.PlacedAreRead and HostProbe.ProbeBytes |
| RecordMethods.WriteRdata | managed_components/espressif__mdns/mdns_send.c:916-1191 | the data of PTR, SRV, TXT, A and AAAA records and the length counted for it, with each writer's own test for room |
| RecordMethods.WriteRecord | managed_components/espressif__mdns/mdns_send.c:792-1191 | name, type, data and the length patched in, or 0 at the first part that does not fit |
| RecordMethods.WriteQuestion | managed_components/espressif__mdns/mdns_send.c:745-780 | name, type and class of a question |
| RecordMethods.DispatchTxPacket | managed_components/espressif__mdns/mdns_send.c:1340-1389 | the static buffer after a packet: header, questions, three sections, each with its count in the header modulo 256 |
| PacketReader.RecordsLieInside | managed_components/espressif__mdns/mdns_receive.c:766-788 | every record the loop finds lies inside the packet with at least one byte of data, after the one before; a packet holds at most a record for every eleven bytes |
| PacketReader.ReadRecords | managed_components/espressif__mdns/mdns_receive.c:766-788 | the record loop ends, reads nothing outside the packet, and stops at the first malformed record |
| PacketReader.ReadQuestions | managed_components/espressif__mdns/mdns_receive.c:682-701 | the question loop reads the given number of questions, or stops at the first malformed one |
| PacketStops.StopsWhere | managed_components/espressif__mdns/mdns_receive.c:766-788 | the record loop finds every whole record, one behind the other with the fields that stand there, up to the end of the packet or to the first whose name cannot be read, whose fields are cut off, or whose data are empty or run past the end |
| PacketStops.QuestionsStop | managed_components/espressif__mdns/mdns_receive.c:682-701 | the question loop finds as many whole questions as the header counts, one behind the other, or fails at the first that cannot be read |
| PacketStops.FieldsAre | managed_components/espressif__mdns/private_include/mdns_utils.h:18-33 | 16-bit and 32-bit fields are read with the most significant byte first |
| PacketRoundTrip.RecordRuns | managed_components/espressif__mdns/mdns_send.c:792-1191 | a counted record is a sequence of steps on names, bytes and one patched length |
| PacketRoundTrip.PlacedAreRead | managed_components/espressif__mdns/mdns_receive.c:766-788 | records in place up to the end of the packet are read one after the other; behind each name stand the type, the class, which is 0x8001 for a record with the flush bit and 0x0001 for any other, the time to live and the length |
| PacketSent.PacketReadsBack | managed_components/espressif__mdns/mdns_send.c:1340-1389 | a message written in full, each of whose names reads back when it is written, and none of whose fields set later is among the bytes a name is read from, is read back by the parser's loops, question by question and record by record, in order and to the end: each with its name up to case, its type, its class with the flush or unicast bit just where it was set, its time to live and its data, and the header tells their true numbers |
| PacketSent.SentPacketReadsBack | managed_components/espressif__mdns/mdns_send.c:1340-1389 | so is every message written in full with names of the shapes the sender builds whose matches are at label starts |
| PacketSent.MessageIsAllowed | managed_components/espressif__mdns/mdns_send.c:1340-1389 | every step of writing such a message is a correct one: what is not asked of it follows from everything having been written |
| HostProbe.ProbeReadsBack | managed_components/espressif__mdns/mdns_send.c:1394-1444 | the probe for a host's name is such a message, for every label without the byte 5 that is not "local" or "_sub", whatever the buffer held before, and its second name is a pointer to the first |
| HostProbe.ProbeBytes | managed_components/espressif__mdns/mdns_send.c:1394-1444 | that packet byte by byte: header and counts, the question with its type and unicast class, the address record with a pointer for its name, class 0x0001, its time to live of 120 and its length |
| PacketRoundTrip.HeaderTells | managed_components/espressif__mdns/mdns_send.c:1340-1389 | the header holds the identifier, the flags and the numbers of questions and records of each section |
| PacketRoundTrip.RecordIsPlaced | managed_components/espressif__mdns/mdns_send.c:741-1189 | a record that was counted stays in the packet to the end: its owner reads back, its fields, its length and its data are there (the fields in numbers: PlacedAreRead) |
| TxQueue.SendAfterKeeps | managed_components/espressif__mdns/mdns_send.c:1628-1646 | scheduling a packet keeps the list sorted and the posted packets first, with exactly their sends pending, in order |
| TxQueue.ThinningKeeps | managed_components/espressif__mdns/mdns_send.c:1667-1687 | cancelling packets, or changing what they will carry, keeps the same |
| TxQueue.WithoutThins | managed_components/espressif__mdns/mdns_send.c:1667-1687 | clearing an interface removes all its packets and no other |
| TxQueue.TickKeepsIff | managed_components/espressif__mdns/mdns_send.c:1714-1746 | a tick with any outcomes of its posts strands no packet if and only if no post succeeds after one that failed |
| TxQueue.TickKeeps | managed_components/espressif__mdns/mdns_send.c:1714-1746 | a tick that only fills the action queue strands no packet |
| TxQueue.EverySendIsForTheHead | managed_components/espressif__mdns/mdns_send.c:1837-1848 | every send the service task takes is for the posted head of the list, which is then sent, or for a packet no longer there; nothing else pending names that packet |
| TxStranding.TickTells | managed_components/espressif__mdns/mdns_send.c:1714-1746 | a tick with nothing taken meanwhile posts, of the packets not posted yet, exactly those whose time has passed, in order, as far as the 16 places of the action queue go |
| ResponderEffects.InsertJoins | managed_components/espressif__mdns/mdns_send.c:1628-1646 | a packet scheduled comes into the list behind those to be sent no later and in front of the rest, which stay in order |
| TxStranding.LatePostStrands | managed_components/espressif__mdns/mdns_service.c:203-222 | with two packets due on different interfaces, a full action queue, and an action taken between the two posts: the first post is refused, the second taken, and once the task has worked off its queue and the first packet is cancelled, the second is at the head, posted, with no send pending |
| TxStranding.NothingTakenIsRoom | managed_components/espressif__mdns/mdns_service.c:421-427 | with nothing taken between the posts of a tick, the answers are those of a queue that is only filled |
| TxStranding.StuckForGood | managed_components/espressif__mdns/mdns_send.c:1714-1746 | from then on, whatever happens other than cancelling it, that packet stays at the head unsent and no packet leaves the list |
| ResponderInv.ReprobeIsUnion | managed_components/espressif__mdns/mdns_pcb.c:389-424 | probing again while probing covers the old and the new services, each once, and nothing else, and does not exceed the allocation |
| ResponderInv.ProbeBodyIsProbe | managed_components/espressif__mdns/mdns_send.c:1394-1444 | a new probe asks for and claims every service probed, and the host with its address when addresses are probed |
| ResponderInv.InitProbeKeeps | managed_components/espressif__mdns/mdns_pcb.c:339-424 | starting to probe keeps the invariant of every interface |
| ResponderInv.EnableKeeps | managed_components/espressif__mdns/mdns_pcb.c:172-181 | enabling an interface keeps it |
| ResponderInv.DisableKeeps | managed_components/espressif__mdns/mdns_pcb.c:153-167 | disabling an interface keeps it |
| ResponderInv.DisableFrees | managed_components/espressif__mdns/mdns_pcb.c:153-167 | a disabled interface is off and down, and its duplicate probes or runs if the network side starts, or is off: it is never left waiting |
| ResponderInv.AnnounceKeeps | managed_components/espressif__mdns/mdns_pcb.c:43-84 | announcing keeps the invariant; what it adds is in ResponderEffects.AnnouncementGrows and AnnouncementBegins |
| ResponderInv.MarkDuplicateKeeps | managed_components/espressif__mdns/mdns_pcb.c:186-204 | marking a duplicate keeps it: the duplicate is down and its partner is up |
| ResponderSteps.AnnounceFromProbeLasts | managed_components/espressif__mdns/mdns_send.c:1479-1510 | the announcement made from a probe announces something |
| ResponderPackets.ProbeAsks | managed_components/espressif__mdns/mdns_send.c:1394-1444 | a probe asks once for every service and, if addresses are probed, for the host names, and offers exactly the SRV records and addresses it is to be compared by |
| ResponderPackets.AnnouncementTells | managed_components/espressif__mdns/mdns_send.c:1449-1474 | an announcement carries all four records of every service, each once, and nothing else but the addresses asked for |
| ResponderPackets.AnnouncementFollowsProbe | managed_components/espressif__mdns/mdns_send.c:1479-1514 | the announcement made from a probe carries all four records of every service probed and the addresses of its host, each once, and nothing else but the addresses of the device when they alone were probed |
| ResponderEffects.ProbeBegins | managed_components/espressif__mdns/mdns_pcb.c:339-424 | an interface made to probe has on its list the services given and those being probed, each once; its other packets are gone, and one new packet asks for and claims just that list, after 120 to 247 ms, or 1000 to 1127 after more than five failed probes; without a host name it just runs |
| ResponderEffects.AnnouncementGrows | managed_components/espressif__mdns/mdns_pcb.c:53-69 | announcing more while an announcement is under way: the first packet of the interface keeps its records, in front, and gains the four records of every service given and, when asked for, the addresses of their hosts or of the device, each once and nothing else; announcing begins again and no other packet changes |
| ResponderEffects.AnnouncementBegins | managed_components/espressif__mdns/mdns_pcb.c:43-84 | announcing otherwise: a running interface with a host name gets one new packet, to go at once, that tells of just the services given; a probing one probes anew; on others nothing happens |
| ResponderEffects.SentTells | managed_components/espressif__mdns/mdns_pcb.c:211-259 | what follows a packet sent: the first two probes and announcements go out again unchanged after 250 and 1000 ms, the third probe is followed by a new packet with the records its claims yield, the third announcement by nothing; failures are forgotten after probing |
| ResponderEffects.SentAndDone | managed_components/espressif__mdns/mdns_pcb.c:211-259 | a packet of an interface that just runs leads to nothing more, one of an interface that is off is dropped |
| ResponderEffects.ActionTells | managed_components/espressif__mdns/mdns_send.c:1827-1848 | the service task sends a packet exactly when it is at the head of the list and was posted, and takes it out |
| ResponderEffects.EnabledTells | managed_components/espressif__mdns/mdns_pcb.c:172-181 | an interface turned on is up and asks for every service of the device and for addresses, or, if its network side does not start, only forgets its failures |
| ResponderEffects.DisabledTells | managed_components/espressif__mdns/mdns_pcb.c:153-167 | an interface turned off loses all its packets and is as at first, and its duplicate is turned on |
| ResponderEffects.DuplicateTells | managed_components/espressif__mdns/mdns_pcb.c:186-204 | a duplicate falls silent and loses all its packets, and its partner announces the addresses of the device |
| ResponderSteps.ProbeGoesOn | managed_components/espressif__mdns/mdns_pcb.c:211-259 | sending a probe leaves the interface with exactly its next probe scheduled, or with the announcement of what was probed |
| ResponderSteps.AnnouncementGoesOn | managed_components/espressif__mdns/mdns_pcb.c:244-254 | sending while announcing leaves an announcement scheduled, or ends in running |
| ResponderSteps.RunActionKeeps | managed_components/espressif__mdns/mdns_send.c:1827-1848 | every action the service task takes keeps the invariant |
| ResponderRemoval.StripProbe | managed_components/espressif__mdns/mdns_pcb.c:261-300 | a probe that loses a service claims what is left, and the interface runs when nothing is left |
| ResponderEffects.StripTells | managed_components/espressif__mdns/mdns_pcb.c:261-300 | one packet of a removal, and its interface: every record of the service goes from all sections and the others keep their order, a question of its type goes just when the interface was probing it, probing goes on without it or ends, and announcing ends when its last answer went |
| ResponderEffects.RemovedTells | managed_components/espressif__mdns/mdns_send.c:1778-1825 | after a removal no packet speaks of the service, each keeps its other records in order or is gone if nothing is left, and the device has the service no longer |
| ResponderAsks.StillAskedIff | managed_components/espressif__mdns/mdns_send.c:1794-1816 | a complete probe that loses a service asks for everything that is left if and only if no service that is still probed and stands before the removed one has its type |
| ResponderAsks.ProbeAsksAll | managed_components/espressif__mdns/mdns_send.c:1394-1444 | a new probe asks for its services in their order, and for no other |
| ResponderRemoval.RemoveServiceKeeps | managed_components/espressif__mdns/mdns_send.c:1778-1825 | removing a service loses no other packet that claims what is probed and leaves no interface announcing nothing |
| ResponderComplete.RemovalCompleteIff | managed_components/espressif__mdns/mdns_send.c:1778-1825 | a removal leaves every probe complete if and only if no interface probes, in front of the removed service, another of its type |
| ResponderComplete.WrongQuestionGoes | managed_components/espressif__mdns/mdns_send.c:1796-1814 | otherwise the interface goes on probing a service its only packet does not ask for |
| ResponderRemoval.RemoveKnownKeeps | managed_components/espressif__mdns/mdns_send.c:1590-1622 | removing known answers touches neither probes nor announcements |
| ResponderEffects.KnownLeaves | managed_components/espressif__mdns/mdns_send.c:1590-1622 | a known answer takes the first such record from every distributed response of its interface and changes no other packet |
| ResponderAll.ProbeAllKeeps | managed_components/espressif__mdns/mdns_pcb.c:445-462 | probing on every interface that is up keeps the invariant |
| ResponderAll.SetNameKeeps | managed_components/espressif__mdns/mdns_responder.c:238-260 | giving the device a name, which drops every packet and probes everything again, keeps it |
| ResponderAll.AddServiceKeeps | managed_components/espressif__mdns/mdns_responder.c:816-821 | a new service, probed on every interface that is up, keeps it |
| ResponderAll.AnnounceAllKeeps | managed_components/espressif__mdns/mdns_responder.c:150-158 | announcing on every interface keeps it |
| ResponderEffects.RestartTells | managed_components/espressif__mdns/mdns_responder.c:238-260 | a new host name makes every interface that is up probe for just the services of the device and for addresses, and leaves the others |
| ResponderEffects.ProbeAllTells | managed_components/espressif__mdns/mdns_pcb.c:445-462 | probing everywhere: every interface that is up probes the services given, and those it was probing unless lists are cleared |
| ResponderEffects.AnnounceAllTells | managed_components/espressif__mdns/mdns_responder.c:150-158 | announcing everywhere, with a host name: every interface that is up begins to probe again if it probes and to announce otherwise |
| ResponderRuns.StepKeeps | managed_components/espressif__mdns/mdns_service.c:161-222 | every step of the engine keeps the invariant |
| ResponderRuns.EveryRun | managed_components/espressif__mdns/mdns_service.c:161-229 | every run keeps the invariant |
| ResponderRuns.FromTheStart | managed_components/espressif__mdns/mdns_pcb.c:43-462 | in every state of every run: duplicates are silent and have a partner that is up; an interface that is up has a list of services only while probing, when its only packet claims what is probed; while announcing it owns an announcement |
| ResponderComplete.EveryProbeIsComplete | managed_components/espressif__mdns/mdns_pcb.c:211-259 | in a run from the start every interface that is up and probing has its probe, which asks for and claims every service probed, as its only packet, in every state, if and only if every removal of the run is orderly |
| ResponderComplete.OrderlyFromTheStart | managed_components/espressif__mdns/mdns_pcb.c:43-462 | in such runs everything FromTheStart says, with the complete probe as the only packet |
| ResponderComplete.RemovedIsAskedFor | managed_components/espressif__mdns/mdns_send.c:1796-1814 | a name set, one interface up, two instances of a type added, the first removed again: the interface goes on probing the second, and its only packet asks for the first |
| ResponderRuns.NothingIsStranded | managed_components/espressif__mdns/mdns_send.c:1628-1848 | in every state of every run the posted packets are a prefix of the sorted list, all due, and the pending sends that name packets of the list name exactly these in order |
| ResponderLists.MergeFitsIff | managed_components/espressif__mdns/mdns_pcb.c:339-367 | the merge exceeds its allocation if and only if the interface is not probing, still has a list, and new services are to be probed |
| ResponderLists.EveryCalmRun | managed_components/espressif__mdns/mdns_pcb.c:261-300 | in every run in which only interfaces that are up are found in conflict no merge exceeds its allocation and no interface probes a service that was removed |
| ResponderLists.ConflictWhileDown | managed_components/espressif__mdns/mdns_pcb.c:339-367 | for every other interface and registered service: a conflict on it, disabling and enabling it copies past the list |
| ResponderLists.DownLosesItsProbe | managed_components/espressif__mdns/mdns_responder.c:238-260 | an interface that is down and made to probe has no packet after the device is given a name, though it still counts as probing |
| ResponderProgress.TakeActionDrops | managed_components/espressif__mdns/mdns_pcb.c:211-259 | every packet sent lowers a measure of what is left to send; every other action changes nothing but the queue |
| ResponderProgress.EveryInterfaceRuns | managed_components/espressif__mdns/mdns_pcb.c:211-259 | from every state of every run, left alone for enough ticks however far apart, every interface that is up runs and no packet is left |
| ResponderPace.EveryInternalRun | managed_components/espressif__mdns/mdns_pcb.c:211-259 | an interface left alone stays on pace with what it sent so far |
| ResponderPace.ThreeProbesThenThreeAnnouncements | managed_components/espressif__mdns/mdns_pcb.c:211-259 | left alone, an interface sends three probes more than 250 ms apart, then three announcements, the first more than 250 ms after the last probe, the others more than 1000 ms apart; it runs exactly when all six were sent |
| ResponderPace.ExactlySix | managed_components/espressif__mdns/mdns_pcb.c:211-259 | left alone for enough ticks it has sent exactly these six and runs |
| EngineParts.DeallocServiceAnswers | managed_components/espressif__mdns/mdns_send.c:1753-1773 | all answers of a service leave the list and the others keep their order |
| EngineParts.RemoveQuestion | managed_components/espressif__mdns/mdns_send.c:1796-1814 | the first question of the same type and protocol leaves the list |
| EngineParts.NewProbeServices | managed_components/espressif__mdns/mdns_pcb.c:400-417 | the services that are not probed yet, in their order |
| EngineParts.MergeLists | managed_components/espressif__mdns/mdns_pcb.c:342-365 | new services, then those probed before, as far as the list allocated goes |
| EngineParts.ShiftOut | managed_components/espressif__mdns/mdns_pcb.c:267-279 | a service leaves the list of those probed and the later ones move down |
| Engine.Mdns.SendAfter | managed_components/espressif__mdns/mdns_send.c:1628-1646 | the packet goes before the first that is to be sent later |
| Engine.Mdns.ClearIf | managed_components/espressif__mdns/mdns_send.c:1667-1687 | all packets of one interface leave the list |
| Engine.Mdns.PostDue | managed_components/espressif__mdns/mdns_send.c:1728-1744 | due packets are posted in order from the first not posted, each marked by whether the action queue took it |
| Engine.Mdns.SendPackets | managed_components/espressif__mdns/mdns_send.c:1714-1746 | one timer tick |
| Engine.Mdns.InitProbeNewService | managed_components/espressif__mdns/mdns_pcb.c:339-387 | the interface probes the merged list, with one new packet after 120 or 1000 ms and a random part |
| Engine.Mdns.InitPcbProbe | managed_components/espressif__mdns/mdns_pcb.c:389-424 | its packets go, and it probes; without a host name it just runs |
| Engine.Mdns.PcbEnable | managed_components/espressif__mdns/mdns_pcb.c:172-181 | an interface whose network side starts probes everything |
| Engine.Mdns.PcbDisable | managed_components/espressif__mdns/mdns_pcb.c:153-167 | an interface goes down, and its duplicate is turned on |
| Engine.Mdns.PcbAnnounce | managed_components/espressif__mdns/mdns_pcb.c:43-84 | by its state, an interface probes, extends its announcement, or starts one; the records are in ResponderEffects.AnnouncementGrows and AnnouncementBegins |
| Engine.Mdns.SetDuplicate | managed_components/espressif__mdns/mdns_pcb.c:186-204 | on each protocol on which the partner is up, the interface is turned off and marked, and the partner announces |
| Engine.Mdns.ScheduleTxPacket | managed_components/espressif__mdns/mdns_pcb.c:211-259 | what follows a packet sent |
| Engine.Mdns.SendPacket | managed_components/espressif__mdns/mdns_send.c:1827-1848 | a packet is sent if it is at the head and was posted |
| Engine.Mdns.TakeAction | managed_components/espressif__mdns/mdns_service.c:203-222 | the service task takes the next action |
| Engine.Mdns.CheckProbingServices | managed_components/espressif__mdns/mdns_pcb.c:261-300 | a removed service leaves the list being probed, which may end the probing, or ends an announcement left empty |
| Engine.Mdns.RemoveScheduledServicePackets | managed_components/espressif__mdns/mdns_send.c:1778-1825 | a removed service leaves every scheduled packet, and packets left empty are dropped |
| Engine.Mdns.ProbeAllPcbs | managed_components/espressif__mdns/mdns_pcb.c:445-462 | every interface that is up probes |
| Engine.Mdns.RestartAllPcbs | managed_components/espressif__mdns/mdns_responder.c:238-260 | every packet goes and every interface that is up probes everything |
| TxtCodec.AppendEntry | managed_components/espressif__mdns/mdns_send.c:115-133 | one item with its length byte, or nothing when it does not fit |
| TxtCodec.AppendData | managed_components/espressif__mdns/mdns_send.c:1015-1034 | the data of a TXT record: its items, or a zero byte for none; 0 if an item did not fit |
| TxtCodec.GetTxtItemsCount | managed_components/espressif__mdns/mdns_receive.c:181-203 | the number of parts up to a zero length, or -1 if a part runs past the end; data of one byte has none |
| TxtCodec.GetTxtItemLen | managed_components/espressif__mdns/mdns_receive.c:208-219 | the length of the key, or -1 when there is none |
| TxtCodec.ReadItem | managed_components/espressif__mdns/mdns_receive.c:262-303 | one part gives its item, if it has a name, and reading goes on after exactly that part |
| TxtCodec.ResultTxtCreate | managed_components/espressif__mdns/mdns_receive.c:224-316 | the building pass never takes its error exit and fills no more slots than were counted; it gives the items of the data |
| TxtCodec.ItemsAreGood | managed_components/espressif__mdns/mdns_receive.c:224-316 | whatever the data, the items read have a key without "=" and no empty value |
| TxtCodec.TxtRoundTrip | managed_components/espressif__mdns/mdns_send.c:1015-1034 | reading back written data gives the same keys and values in order if and only if every key is non-empty without "=", every value absent or non-empty, and every item at most 255 bytes |
| TxtWire.ItemOnWire | managed_components/espressif__mdns/mdns_send.c:115-133 | an item on the wire is its length, its key, and the byte 61 and its value if it has one; no items are a single zero |
| TxtWire.PartReadsAs | managed_components/espressif__mdns/mdns_receive.c:208-303 | a part that is empty or begins with "=" is no item; any other is the key up to the first "=" and the value behind it, if that is not empty |
| TxtWire.ZeroEnds | managed_components/espressif__mdns/mdns_receive.c:181-203 | a zero length ends the data: good items in front of it are read and nothing behind it |
| TxtWire.OverrunSpoils | managed_components/espressif__mdns/mdns_receive.c:232-257 | one part that runs past the end spoils the whole data, and the items before it are lost |
| TieBreak.TxtLength | managed_components/espressif__mdns/mdns_receive.c:405-409 | the length counted is the number of bytes the writer puts in a packet |
| TieBreak.WrittenIsData | managed_components/espressif__mdns/mdns_receive.c:417-424 | items that fit a packet are written in full, whatever the buffer held |
| TieBreak.CheckTxtCollision | managed_components/espressif__mdns/mdns_receive.c:393-433 | the verdict of the TXT comparison |
| TieBreak.TxtTieBreak | managed_components/espressif__mdns/mdns_receive.c:393-433 | two hosts that compare each other's TXT data come to opposite verdicts if and only if not both data are a single byte while one of them has an item |
| TieBreak.TxtTieBreakWithKeys | managed_components/espressif__mdns/mdns_receive.c:393-433 | with keys the verdicts are always opposite, and both "same" exactly when the data are equal |
| TieBreak.CheckSrvCollision | managed_components/espressif__mdns/mdns_receive.c:438-490 | the verdict of the SRV comparison |
| TieBreak.SrvTieBreak | managed_components/espressif__mdns/mdns_receive.c:438-490 | two named hosts in the same domain come to opposite verdicts on SRV data, and both "same" exactly when the records are equal |
| TieBreak.UnnamedTieBreak | managed_components/espressif__mdns/mdns_receive.c:440-442 | a host without a name and a named one agree only if the records are equal |
| TieBreak.LaterDataWins | managed_components/espressif__mdns/mdns_receive.c:411-433 | the other host wins exactly when its data are longer, or of the same length and greater at the first byte that differs |
| TieOrder.TxtLaterWins | managed_components/espressif__mdns/mdns_receive.c:393-433 | the TXT verdict: the other host wins exactly when its data hold an item and ours none, or are later than ours; we win exactly when it is the other way round |
| TieOrder.SrvGreaterWins | managed_components/espressif__mdns/mdns_receive.c:438-490 | the SRV verdict: the other host wins exactly when its host name is longer, or as long and its priority, then weight, then port, then name is greater; a host without a name never loses |
| Rename.StrToL | managed_components/espressif__mdns/mdns_receive.c:146-151 | the number after the last dash, and whether nothing follows it |
| Rename.MangleName | managed_components/espressif__mdns/mdns_receive.c:138-176 | the new name, which fits what was allocated for it |
| Rename.MangledFits | managed_components/espressif__mdns/mdns_receive.c:157-174 | every new name fits its allocation until the number overflows |
| Rename.NeverTheSame | managed_components/espressif__mdns/mdns_receive.c:138-176 | the names after successive conflicts are pairwise different, and different from the first, until the number overflows |
| Rename.PlainNames | managed_components/espressif__mdns/mdns_receive.c:138-176 | a name without a dash is, after k conflicts, followed by a dash and k + 1 |
| RenameSuffix.NumberIff | managed_components/espressif__mdns/mdns_receive.c:146-151 | what stands behind the last dash is a number exactly when it is figures behind blanks and at most one plus sign, or nothing; it counts for at most 0x7FFFFFFF |
| RenameSuffix.RenamedTo | managed_components/espressif__mdns/mdns_receive.c:138-176 | the new name: "-2" behind the old one when no number stands behind its last dash, the next number in its place otherwise |
| Rename.FitsLabelIff | managed_components/espressif__mdns/mdns_receive.c:138-176 | after k conflicts a name fits a 63-byte label exactly when what stands before the number leaves room for the dash and every digit of the number |
| Rename.ShortNamesFit | managed_components/espressif__mdns/mdns_receive.c:138-176 | a name of up to 52 bytes fits after any number of conflicts, one of 62 or 63 bytes without a number is too long after the first |
| Rename.RemapServiceHosts | managed_components/espressif__mdns/mdns_responder.c:533-545 | exactly the services with the old host name get the new one |
| Rename.ServicesFollow | managed_components/espressif__mdns/mdns_receive.c:1022-1027 | over any number of conflicts a service moves, and then has the last name, if and only if its host is the one renamed or has a name the renaming passes through |
| Searches.FoundKeepsBounds | managed_components/espressif__mdns/mdns_querier.c:541-757 | no record makes the count of results wrong, exceeds the limit, or gives a PTR search two results for one instance on an interface and protocol |
| Searches.ForInstanceFinds | managed_components/espressif__mdns/mdns_receive.c:934-950 | an SRV or TXT record of a PTR search is written to the result of its instance, or nowhere when the search is full |
| SearchAnswers.AnswerInAnyOrder | managed_components/espressif__mdns/mdns_receive.c:934-1078 | the PTR, SRV and TXT records of an instance, in any order, make one result with its host, port and TXT data (if there are any) in front of those before, whose TTL is that of the first record or of the PTR record if less |
| SearchAnswers.AddressGoesIn | managed_components/espressif__mdns/mdns_querier.c:620-660 | an address in an A, AAAA or ANY search: one of another family changes nothing; else the first result of the place has it afterwards, once, with the lesser time to live, and with no result there, one new result with the host, the address and the time to live stands in front, if there is room |
| SearchAnswers.HostAddressGoesIn | managed_components/espressif__mdns/mdns_querier.c:661-673 | an address in a PTR or SRV search goes to the first result on its host, and nowhere without one; a TXT search takes none |
| SearchAnswers.ServiceGoesIn | managed_components/espressif__mdns/mdns_querier.c:678-715 | an SRV record outside PTR searches: a result on its host keeps its port, and with none there is one new result with host and port |
| SearchAnswers.TextGoesIn | managed_components/espressif__mdns/mdns_querier.c:541-585 | a TXT record outside PTR searches: the first result of the place keeps its data or gets them, and with none there is one new result with the data |
| SearchAnswers.PointerGoesIn | managed_components/espressif__mdns/mdns_querier.c:720-757 | a PTR record lowers the time to live of its instance or adds one new result |
| SearchAnswers.InstanceDataGoesIn | managed_components/espressif__mdns/mdns_receive.c:934-1078 | SRV and TXT records of a PTR search fill what is missing in the result of exactly their name, else of the instance up to case, else in a new one |
| SearchAnswers.AddressIsLost | managed_components/espressif__mdns/mdns_querier.c:661-672 | over a whole packet: an address is lost when no result is on its host and no SRV record before it names that host; without it the packet comes to the same |
| SearchAnswers.AddressIsTaken | managed_components/espressif__mdns/mdns_querier.c:661-672 | an address that comes when a result is on its host is found there, whatever follows in the packet |
| SearchAnswers.AddressNeedsHost | managed_components/espressif__mdns/mdns_querier.c:661-672 | of an SRV record and an address of its host, the address is found exactly when it comes second |
| Searches.FinishKeeps | managed_components/espressif__mdns/mdns_querier.c:81-94 | a search in the list is completed and leaves it; one that is not is left alone |
| Searches.StartStop1Keeps | managed_components/espressif__mdns/mdns_querier.c:176-190 | a search whose time has passed is marked over only with its END action posted |
| Searches.QueryDoneKeeps | managed_components/espressif__mdns/mdns_querier.c:230-241 | completing full searches keeps the invariant |
| Searches.DeleteKeeps | managed_components/espressif__mdns/mdns_querier.c:786-808 | deleting a search keeps the invariant: it is refused until the search is over, and the search leaves the list first |
| Searches.EveryRun | managed_components/espressif__mdns/mdns_querier.c:60-241 | in every run no freed search is touched, every notifier and semaphore is called at most once, and with a limit the results are counted and within it |
| Searches.TimedOutCompletes | managed_components/espressif__mdns/mdns_querier.c:166-193 | a search whose time has passed is completed by the next tick whose action is taken and the service task catching up |
| SearchSteps.TickTells | managed_components/espressif__mdns/mdns_querier.c:166-193 | a tick, for the whole list: exactly the queries that are due are posted, and the ends of exactly the searches whose time is over, each once, as far as the action queue takes them |
| SearchSteps.QueriesApart | managed_components/espressif__mdns/mdns_querier.c:176-190 | after a query was posted the next is due exactly when more than 1000 ms have passed; one that found no place is due again with the next tick |
| SearchSteps.PacketEndTells | managed_components/espressif__mdns/mdns_querier.c:230-241 | after a packet exactly the searches with enough results are complete and off the list, each with one call of its semaphore and of its notifier if it has one |
| SearchSteps.DeleteTells | managed_components/espressif__mdns/mdns_querier.c:786-808 | a search is deleted exactly when it is over |
| SearchSteps.NewTells | managed_components/espressif__mdns/mdns_querier.c:824-850 | a new search waits to be added with no result; one that cannot be queued is freed again |
| SearchSteps.TakenTells | managed_components/espressif__mdns/mdns_querier.c:134-151 | the service task puts a new search first, completes one whose end is due if it is still listed, and changes no other |
| Querier.Engine.SearchFinish | managed_components/espressif__mdns/mdns_querier.c:81-94 | the search is taken out of the list and completed, if it is there |
| Querier.Engine.QueryAction | managed_components/espressif__mdns/mdns_querier.c:134-151 | the service task adds, sends or completes a search |
| Querier.Engine.QueryStartStop | managed_components/espressif__mdns/mdns_querier.c:166-193 | the timer's pass over the searches |
| Querier.Engine.Done | managed_components/espressif__mdns/mdns_querier.c:230-241 | every full search is completed |
| Querier.Engine.AsyncDelete | managed_components/espressif__mdns/mdns_querier.c:786-808 | a search that is over is taken out and freed; another is refused |
| Querier.Engine.ResultAddPtr | managed_components/espressif__mdns/mdns_querier.c:720-757 | the result of the instance gets the lower TTL, or a new one is added if there is room |
| Querier.Engine.ResultAddSrv | managed_components/espressif__mdns/mdns_querier.c:678-715 | the same by host name |
| Querier.Engine.ResultAddTxt | managed_components/espressif__mdns/mdns_querier.c:541-585 | the first result of the place gets the data unless it has some, or a new one is added if there is room |
| Querier.Engine.ResultAddIp | managed_components/espressif__mdns/mdns_querier.c:620-673 | the address goes to the result of the place or of the host, once, or a new one is added if there is room; the results in full are in SearchAnswers.AddressGoesIn and HostAddressGoesIn |
| AnswerResults.ResponseHolds | managed_components/espressif__mdns/mdns_send.c:523-665 | every record of a response is asked for by a question and in the section that question wants, everything a question asks for is there, and no section says anything twice |
| AnswerResults.PointerIff | managed_components/espressif__mdns/mdns_send.c:556-597 | a service is pointed to exactly when a question discovers it and no known answer has it with more than half of its time left (in numbers: AnswerMeaning.PointedToIff) |
| AnswerMeaning.PointedToIff | managed_components/espressif__mdns/mdns_send.c:556-597 | the same in numbers: a service is pointed to exactly when a PTR question, or an ANY question for no instance, names its type and it, all of the type or one of its subtypes, and no known answer that carries its instance (or none, if it has none), type and protocol, up to case, has a time to live above 2250 |
| AnswerMeaning.PointedToWhenLeft | managed_components/espressif__mdns/mdns_receive.c:862-925 | the same from the records of every query: a service is pointed to exactly when a question that discovers it is left, and no known answer from before and no pointer in the query for the local domain that carries the name of the service has a time to live above 2250 |
| AnswerMeaning.PointedToAfter | managed_components/espressif__mdns/mdns_receive.c:862-925 | when any two questions of the query are answered by the same records or by none in common, the questions left are those that stand, among the questions like them, behind as many as there are records that answer them |
| AnswerMeaning.ServiceToldIff | managed_components/espressif__mdns/mdns_send.c:541-597 | every record said of a service is said because a question is answered for it, in the section that question wants it in, and all such records are said: SRV and TXT questions for the first service that fits, others for every service asked for that is not known |
| AnswerResults.NothingMoreToAsk | managed_components/espressif__mdns/mdns_send.c:255-301 | with every pointer go the SRV and TXT records of its service and the addresses of its host, and with every SRV record the addresses |
| AnswerResults.SuppressedIff | managed_components/espressif__mdns/mdns_receive.c:862-925 | known-answer suppression from the records of the query to the response: a service is pointed to exactly when a question that discovers it survives and no record names it with more than half of its time left (in numbers: AnswerMeaning.PointedToAfter) |
| AnswerResults.AllNotedIs | managed_components/espressif__mdns/mdns_receive.c:862-925 | of the questions that the same records answer, as many of the first are dropped as there are such records |
| AnswerResults.OneKnownHidesAll | managed_components/espressif__mdns/mdns_receive.c:525-535 | a known service under the default name drops the question for its whole type, whatever its TTL: no service that only this question discovers is pointed to |
| AnswerResults.RemovedFirst | managed_components/espressif__mdns/mdns_receive.c:553-584 | removing a question removes the first that matches and no other |
| AnswerResults.SaidTwiceIff | managed_components/espressif__mdns/mdns_send.c:255-301 | the SRV record of a service is in both sections exactly when one question asks for it and another discovers the service |
| AnswerResults.EmptyResponseIff | managed_components/espressif__mdns/mdns_send.c:640-665 | a response without answers is sent exactly when something is counted, and only for questions for a service that are of a type no service has |
| AnswerResults.FirstHostIsLeftOut | managed_components/espressif__mdns/mdns_send.c:367-384 | a question for everything about a host gets no address of the first delegated host |
| AnswerResults.WhenItIsSent | managed_components/espressif__mdns/mdns_send.c:640-665 | nothing is sent exactly when no question counts; the last question decides whether the response waits, for 25 to 100 ms in turn |
| AnswerMeaning.WhereItGoes | managed_components/espressif__mdns/mdns_send.c:619-665 | a response goes to the asker alone exactly when the asker uses another port or a question that was heard wants it so, and to another port the questions for hosts and for anything are said again, in order |
| AnswerMeaning.EveryBitIsRight | managed_components/espressif__mdns/mdns_send.c:255-301 | the cache-flush bit stands on every record of a response to the mDNS port but the pointers to services, and on none to another port |
| AnswerMeaning.AnswersInOrder | managed_components/espressif__mdns/mdns_send.c:213-237 | the answers to one question stand behind those to the questions before it, in both sections |
| AnswerMeaning.FoundIff | managed_components/espressif__mdns/mdns_utils.c:146-177 | the service found is the first whose type and protocol are the same up to case and whose instance, or the default one, is that named |
| AnswerMeaning.HostToldIs | managed_components/espressif__mdns/mdns_send.c:240-253 | the host is this device when none or its own name is given, else the first of the other hosts with that name |
| AnswerMeaning.OursIff | managed_components/espressif__mdns/mdns_receive.c:57-115 | a name is ours exactly when it is local and names this device or a host it answers for, a service type it has, one of its subtypes or one of its instances |
| AnswerMeaning.HeardTells | managed_components/espressif__mdns/mdns_receive.c:702-757 | a question for the list of services becomes one for the type of every service; one for a name that is ours is kept as it is, in front; any other leaves no trace |
| AnswerMeaning.DropsIff | managed_components/espressif__mdns/mdns_receive.c:518-584 | a record of the query drops a question exactly when it is for a name that is ours, is not a subtype, answers it by type and instance, and the query is no probe or the record is a pointer of the list of services |
| AnswerResults.ServiceGives | managed_components/espressif__mdns/mdns_send.c:255-301 | what one service adds to the two sections for one question |
| AnswerMethods.CreateAnswerFromParsedPacket | managed_components/espressif__mdns/mdns_send.c:523-665 | the response is that of the functions AnswerResults and AnswerMeaning speak of |
| AnswerMethods.Response.CreateAnswerFromService | managed_components/espressif__mdns/mdns_send.c:255-301 | the records of one service |
| AnswerMethods.Response.AppendHostList | managed_components/espressif__mdns/mdns_send.c:367-384 | the addresses of the device and of the hosts behind the others |
| AnswerMethods.Response.AnswerServices | managed_components/espressif__mdns/mdns_send.c:556-597 | every service a question for a type fits and no known answer names is answered for; which these are is in AnswerMeaning.ServiceToldIff and PointedToIff |
| AnswerMethods.CreateAnswer | managed_components/espressif__mdns/mdns_send.c:213-237 | an answer is appended unless it is there |
| AnswerMethods.GetHostItem | managed_components/espressif__mdns/mdns_send.c:240-253 | the device itself without a name or under its own, else the first host of that name |
| AnswerMethods.GetServiceItem | managed_components/espressif__mdns/mdns_utils.c:146-177 | the first service that fits |
| AnswerMethods.Query.Hear | managed_components/espressif__mdns/mdns_receive.c:702-757 | a question is kept in front of those before when it is for us; the list of services becomes a question for each |
| AnswerMethods.Query.RemoveParsedQuestion | managed_components/espressif__mdns/mdns_receive.c:553-584 | the first question that matches is removed |
| AnswerMethods.Query.Note | managed_components/espressif__mdns/mdns_receive.c:876-925 | a known pointer is noted, and what a record of the query answers is no longer asked |
| Subtypes.AddMultipleIs | managed_components/espressif__mdns/mdns_responder.c:1333-1368 | adding subtypes succeeds exactly when no item repeats another or one that was there, and the service is announced then; otherwise what came before the failing item stays, unannounced |
| Subtypes.UpdateReplaces | managed_components/espressif__mdns/mdns_responder.c:1428-1473 | items without repeats become the subtypes, exactly the others get a goodbye, each once, and the service is announced again unless none are left |
| Subtypes.LostSilentlyIff | managed_components/espressif__mdns/mdns_responder.c:1440-1460 | a subtype is neither kept nor taken leave of exactly when it is among the items but not before the first repeated one |
| Subtypes.RepeatedItemLosesRest | managed_components/espressif__mdns/mdns_responder.c:1440-1460 | a list that repeats its first item loses the subtype that follows it without a goodbye |
| Subtypes.GoingAre | managed_components/espressif__mdns/mdns_responder.c:1378-1426 | the subtypes that go are exactly those not among the items, each once |
| Subtypes.RemoveTells | managed_components/espressif__mdns/mdns_responder.c:1276-1307 | exactly the subtype named is removed and taken leave of, once; one that is not there is not found and nothing happens |
| Subtypes.RemoveUndoesAdd | managed_components/espressif__mdns/mdns_responder.c:1276-1331 | removing a subtype just added leaves the list as it was |
| Subtypes.ServiceSubtypes.UpdateMultipleItems | managed_components/espressif__mdns/mdns_responder.c:1428-1473 | the list, result, goodbyes and announcement are those of the specification |
| Subtypes.ServiceSubtypes.AddMultipleItems | managed_components/espressif__mdns/mdns_responder.c:1333-1368 | the same for adding |
| Subtypes.ServiceSubtypes.RemoveItem | managed_components/espressif__mdns/mdns_responder.c:1276-1307 | the subtype named is removed and taken leave of, or nothing is found |
| Subtypes.ServiceSubtypes.TakeGoing | managed_components/espressif__mdns/mdns_responder.c:1378-1426 | those not among the items leave the list, in order |
| Subtypes.ServiceSubtypes.RemoveOne | managed_components/espressif__mdns/mdns_responder.c:1247-1274 | the first of the name is unlinked, or nothing is found |
| Browse.PacketIs | managed_components/espressif__mdns/mdns_receive.c:819-872 | a packet whose first record opens a browse: the other records are entered in order, then the addresses applied, the last one first |
| Browse.AddressOrderDoesNotMatter | managed_components/espressif__mdns/mdns_browser.c:277-316 | moving the addresses of a packet among its other records changes no cache and no report of changes, for a packet that opens with a record of the one browse it is for |
| Browse.EarlyAddressIsLost | managed_components/espressif__mdns/mdns_receive.c:1189-1194 | an address before any record of a browse, for a host no cache knows, changes nothing |
| BrowseAnswers.CompleteAnswer | managed_components/espressif__mdns/mdns_receive.c:819-872 | a packet that answers for a new service, wherever its addresses stand, gives the cache exactly one new entry with host, port, TXT data and all the addresses in their order, and reports that one change |
| BrowseAnswers.FoldIsLeast | managed_components/espressif__mdns/mdns_browser.c:497-556 | the TTL of an entry is the least of those received as long as none is zero |
| BrowseAnswers.SrvIsHeard | managed_components/espressif__mdns/mdns_browser.c:712-796 | after an SRV record the entry of the instance is on its host, and has its port if and only if it was new, on another host, or had that port already |
| BrowseRecords.TextHeard | managed_components/espressif__mdns/mdns_browser.c:594-687 | a TXT record of a known instance: its entry has exactly the items of the record afterwards and every other entry stays; it is reported exactly when it had items and they were more or fewer or one now is not the first of its key among them, or when its time to live changes; a new instance gets a new entry |
| BrowseRecords.ServiceHeard | managed_components/espressif__mdns/mdns_browser.c:712-796 | an SRV record of a known instance on its host may lower its time to live and is reported exactly then; on another host the entry gets that host and port, and, if it had none, the addresses of the first other entry of the host with the same IP version, and is reported; a new instance gets a new entry |
| BrowseRecords.PointerHeard | managed_components/espressif__mdns/mdns_browser.c:318-371 | a pointer to a known instance may lower its time to live and is reported exactly then; a new instance gets a new entry |
| BrowseRecords.AddressHeard | managed_components/espressif__mdns/mdns_browser.c:497-556 | an address goes to the first entry of its host at its place that lacks it, in front, and that is reported; without one nothing changes |
| BrowseRecords.NothingHeard | managed_components/espressif__mdns/mdns_browser.c:318-371 | an instance without a name, or a browse without a type, changes no cache |
| BrowseRecords.RecordIsFor | managed_components/espressif__mdns/mdns_browser.c:374-402 | a record is for the first browse of its service and protocol, an address for the first with an entry on its host at the place |
| BrowseRecords.OnlyTheFirstChanges | managed_components/espressif__mdns/mdns_browser.c:239-267 | whatever a packet holds, only the cache of the browse its first record that is for one is for can change |
| BrowseRecords.ReadTells | managed_components/espressif__mdns/mdns_receive.c:819-872 | each record of a packet is entered in that cache or in none; an address waits, the last in front, once a browse is known |
| BrowseRecords.EndTells | managed_components/espressif__mdns/mdns_browser.c:305-316 | the addresses that wait are applied at the end of the packet exactly when the browse it was last found to be for is the first |
| Browse.EveryPacketKeeps | managed_components/espressif__mdns/mdns_browser.c:318-371 | whatever a packet holds, every cache keeps one entry for an instance on an interface and protocol, and the entries reported as changed are there, each once |
| Browse.EnterKeeps | managed_components/espressif__mdns/mdns_browser.c:594-796 | the same for one PTR, SRV or TXT record |
| Browse.ApplyKeeps | managed_components/espressif__mdns/mdns_browser.c:497-556 | the same for addresses |
| Browser.Results.AddBrowseResult | managed_components/espressif__mdns/mdns_browser.c:465-487 | an entry is reported once |
| Browser.Results.ResultAddPtr | managed_components/espressif__mdns/mdns_browser.c:318-371 | the entry of the instance gets a TTL, or a new one is added |
| Browser.Results.ResultAddSrv | managed_components/espressif__mdns/mdns_browser.c:712-796 | the entry of the instance gets host, port and the addresses of an earlier entry of that host |
| Browser.Results.ResultAddTxt | managed_components/espressif__mdns/mdns_browser.c:594-687 | the entry gets the data, and is reported when it had other data or the TTL changes; in full in BrowseRecords.TextHeard |
| Browser.Results.ResultAddIp | managed_components/espressif__mdns/mdns_browser.c:497-556 | the first entry of the host that lacks the address gets it |
| Browser.Results.CopyAddressInPreviousResult | managed_components/espressif__mdns/mdns_browser.c:691-706 | addresses come from the first entry of the host that has any |
| Browser.Results.ApplyStagedIps | managed_components/espressif__mdns/mdns_browser.c:305-316 | the staged addresses are applied from the last one on |
| Browser.IsTxtItemInList | managed_components/espressif__mdns/mdns_browser.c:569-589 | the first item of the key decides |
| Remote.EveryRun | src/GoogleIP_Remote.cpp:231-475 | in every run at most one socket is open and at most three remote attempts are made between resets of the counter |
| Remote.StopsAfterThree | src/GoogleIP_Remote.cpp:239-266 | with a television that cannot be reached the loop stops in DISCONNECTED at the tenth call, after exactly three attempts |
| Remote.StartsAfresh | src/GoogleIP_Remote.cpp:221-266 | whatever happened before, connecting again starts from nothing: ten calls with a television that cannot be reached go through exactly three attempts |
| Remote.PairedIff | src/GoogleIP_Remote.cpp:365-371 | over any step the remote is paired exactly if it was, or a whole message on the pairing connection decodes to the secret acknowledgement; it then starts up again with no attempt counted |
| Remote.ModeAfter | src/GoogleIP_Remote.cpp:231-452 | where one call of the loop leads: to each mode exactly under the condition given, by what was read, reached, sent and decoded |
| Remote.CountAndSocket | src/GoogleIP_Remote.cpp:231-475 | how the count of attempts and the socket stand after one call |
| Remote.FramesComeOut | src/GoogleIP_Remote.cpp:329-334 | messages of at most 255 bytes read in non-empty chunks come out once, in order, with nothing left, if and only if no chunk crosses the end of a message |
| Remote.LoopFeeds | src/GoogleIP_Remote.cpp:326-447 | what a connected loop takes is what comes out of the bytes read |
| Remote.MessagesArrive | src/GoogleIP_Remote.cpp:326-447 | messages on one connection reach the program exactly once and in order if and only if no bytes were left of an earlier one and no read crosses the end of a message |
| Remote.NextConnection | src/GoogleIP_Remote.cpp:275-321 | whatever happens between two connections, the messages of the second arrive exactly if and only if no message of the first was left unfinished and no read crosses the end of one |
| Remote.UnfinishedStays | src/GoogleIP_Remote.cpp:231-321 | an unfinished message outlives a failed read and a new connection |
| Remote.BytesAreKept | src/GoogleIP_Remote.cpp:326-334 | the bytes read are those of the messages taken out, behind their length bytes, and those left over |
| Remote.PastTheEnd | src/GoogleIP_Remote.cpp:329-334 | once a read goes past the end of a message, nothing is recognised again |
| Remote.GoogleTvRemote.Disconnect | src/GoogleIP_Remote.cpp:454-475 | session, context and socket are closed |
| Remote.GoogleTvRemote.ConnectToTv | src/GoogleIP_Remote.cpp:221-229 | the mode is set to start up and the counter is reset |
| Remote.GoogleTvRemote.MakeSslConnectBase | src/GoogleIP_Remote.cpp:718-815 | a socket is opened only when none is, and closed again unless the handshake succeeds |
| Remote.GoogleTvRemote.LoopRemoteConnection | src/GoogleIP_Remote.cpp:231-452 | one call of the loop, by mode and what was read |
| Remote.GoogleTvRemote.OnReadFailed | src/GoogleIP_Remote.cpp:275-321 | a failed read ends pairing, or turns to the pairing port and then to the wake-up |
| Remote.GoogleTvRemote.OnData | src/GoogleIP_Remote.cpp:326-451 | bytes are collected, and a complete message is taken and handled |
| Remote.EncodeMessageToSend | src/GoogleIP_Remote.cpp:1203-1212 | the payload with its length in front |

## Left out

- Sockets, lwIP, multicast groups, netif events, the console, printing, memory wrappers and the test harnesses: input
  and output, or wrappers.
- Certificates, wolfSSL, nanopb, the wake-up call, ARP and WiFi of the remote: libraries that are not shown; the
  messages a pairing packet decodes to are a parameter.
- Teardown (`mdns_free`, ACTION_TASK_STOP and ACTION_CLEANUP): runs are those before it.
- Failed allocations.
- Reverse lookups (CONFIG_MDNS_RESPOND_REVERSE_QUERIES) and names written by `append_fqdn_dots`.
- A response enters the runs of the responder as an arbitrary packet that may be scheduled once probing is over; what
  is in it is the subject of Answers. Its address and port are modelled as whether it goes to the asker.
- The content of answers on the wire for several addresses of one host, subtypes of a service, and goodbye packets,
  which are sent at once and never enter the transmit list.
- The unicast bit of questions, which the first probe clears.
- The A and AAAA collision tests, which compare with addresses of the network interface.
- Delegated hosts and their address lists, except that services on them are removed one by one.
- The list of TXT items a service is given through the API, and looking up the service whose subtypes change.
- Starting to browse, and handing changed results to the notifier after the packet is read.
- Finding which search a record is for: a record goes to any running search of the list.
- `uint8_t` arithmetic on the number of services probed: the configuration limits services to fewer than 256.
- RecordMethods.DispatchTxPacket: writes one record for each answer, where the program writes several for a host with
  several addresses or a service with subtypes.
- NameRoundTrip.RoundTrip: speaks of candidates that end inside the bytes written; RoundTripFollowed speaks of all.
- PacketNames.EverySentNameReadsBack: asks that matches are at label starts, for the reason LongerNameTaken gives;
  EveryNameReadsBack covers matches in other bytes that read right.
- PacketSent.SentPacketReadsBack: asks the same; PacketSent.PacketReadsBack does not.
- PacketSent.PacketReadsBack: asks that everything was written, for the reason PartOfARecordStays gives.
- AnswerResults.AllNotedIs: speaks of a question that shares with each other one all the records that answer it or none.
- AnswerResults.OneKnownHidesAll: asks the same of its question.
- AnswerResults.SuppressedIff: asks that any two questions of a query are answered by the same records or by none in
  common, which leaves out a type and one of its instances asked for together; RemovedFirst says for every query
  which question a record drops.
- AnswerMeaning.PointedToAfter: asks the same; AnswerMeaning.PointedToWhenLeft speaks of every query.
- ResponderPace.ThreeProbesThenThreeAnnouncements: speaks of an interface left alone; a response scheduled while it
  announces is sent, and moves the state on, like an announcement.
