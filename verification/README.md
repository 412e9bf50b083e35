# A Dafny model of the IEC 61850 DSLink gateway

The gateway reads the data model of an IEC 61850 server, builds a tree of nodes from it, and keeps that tree
in step with the server: values arrive in reports, data sets are staged and created, report control blocks are
read and written. This project models the parts of the gateway and of its libiec61850 copy that decide
something on their own, and proves what they promise. Where the code does not keep a promise, the exact
condition under which it does is proved instead.

`dafny verify dfyconfig.toml` checks everything. One module per file:

| area | modules |
|---|---|
| timestamps and durations | `Calendar`, `Digits`, `Sscanf`, `Iso8601`, `Timestamps`, `RoundTrip`, `Durations` |
| node tree, discovery, references | `NodeTree`, `References`, `Resolution`, `Discovery`, `DiscoveredTree`, `DiscoveredNames`, `ServerDiscovery`, `DiscoveredExact` |
| data sets, choices, reports | `DataSets`, `Choices`, `Reports`, `BitStrings` |
| state over runs | `RcbMirror`, `ServerNodes`, `DirtyFlags`, `BeagleDemo`, `JournalPaging` |
| shared | `Wrappers`, `CText`, `Strings` |

## How the model is built

- Code that changes something step by step is a method or a class. Each method is proved against a function of
  its inputs or of the old state, and the theorems are about that function. Actions of a user, answers of the
  server and service failures are events; a theorem over a run is a lemma over every finite list of events.
- `gmtime_r` and `timegm` are defined: the proleptic Gregorian calendar counted year by year, proved equal to
  the expression in section 4.16 of POSIX.1-2017 Base Definitions, and inverse to each other.
- `sscanf` is modelled with leading blanks, signs and short fields, so that both parsers are total functions. A
  parser whose cursor passes the terminator of its argument has the outcome `Overrun`. `FixedWidth` says that
  every numeric field the parser looks at is a full-width digit field, or nothing number-like; the theorems
  about the accepted language are for such texts, the round trip needs no such condition.
- The node tree is a map from paths to nodes, a path being the keys from the root. Adding a child that exists is
  refused, and looking up a child takes one key.
- The conditions on models and trees can be met: `ServerDiscovery.SmallModelOk` and `ServerDiscovery.FreshTreeOk`
  give a model and a tree that meet them.
- A general interrogation is an event that changes none of the copies of a report control block.
- The order in which the children of a node are visited is any order that visits each once.

## What was found

- The round trip of a timestamp holds for every 64-bit millisecond count up to the end of year 9999 and for no
  later one (`RoundTrip.PrintThenParse`).
- The comment in the parser lists minute-only and zone-less times; the parser rejects both
  (`Timestamps.AcceptedLanguage`). The two parsers agree on a nonzero value only for fraction-and-`Z` times.
- In the duration scan an hour sets the day flag, so that hours may repeat, and the last one counts.
- `parseBitString` never returns a positive count, and falls off its end on texts of comma-terminated pairs.
- A reference resolves to the node it names exactly if no constrained key on its path has a plain sibling of
  the same name; in a model without such siblings discovery's references all resolve.
- A data set whose own reference contains a `$` is not found again from a report control block.
- Editing a server without changing anything replaces it, because its key is compared with the bare name; with
  a name that another server has, the edited server is lost.
- Clearing a server releases each removed child once only if the children that stay are visited first.
- A data-set member whose key another member has is refused; that takes a dollar sign in a reference.
- A setting of a report control block that the server does not store, and whose recovery read fails, stays in the
  cache until a later write of that field or a read; the copies differ exactly while it names a new value.
- An entry with a comma is not offered whole; every other entry is.
- In the C# client a failed send clears the flags of fields it did not store; a read between a setter and a send
  throws the set value away; a changed report identifier never re-installs the handler.

## Model

| member | source | states |
|---|---|---|
| `Calendar.GmTimeInverse` | src/time_iso8601.c:298-304 | every second count since 1970 becomes a civil date and time that timegm takes back to the same count |
| `Calendar.TimeGmInverse` | src/time_iso8601.c:221-256 | every civil date and time from 1970 on becomes a count that gmtime_r takes back to the same fields |
| `Calendar.TimeGmMonotone` | src/time_iso8601.c:221-256 | the count grows strictly in the reading order of civil times |
| `Calendar.GmTimeMonotone` | src/time_iso8601.c:298-304 | later counts have later fields in reading order |
| `Calendar.PosixFormula` | src/time_iso8601.c:221-256 | days counted year by year equal the year terms of the POSIX expression, for every year |
| `Calendar.MonthsFormula` | src/time_iso8601.c:221-256 | days counted month by month equal a closed expression of year and month |
| `Calendar.PosixSeconds` | src/time_iso8601.c:221-256 | timegm on civil fields is the POSIX expression for seconds since the epoch |
| `Digits.IntToStringBuffer` | libiec61850/src/common/conversions.c:97-121 | the field is the value in decimal at fixed width, terminated, and the rest of the buffer is untouched |
| `Digits.ScanField` | libiec61850/src/common/conversions.c:97-121 | a value that fits prints as digits only, which read back as the value |
| `Digits.FieldScan` | libiec61850/src/common/conversions.c:97-121 | reading a digit field and printing it again gives the same digits |
| `Digits.FieldOrder` | libiec61850/src/common/conversions.c:97-121 | at one width, smaller values print earlier in the dictionary |
| `Sscanf.ScanClear` | src/time_iso8601.c:213-267 | where a field is full-width digits or not number-like, sscanf reads exactly that field or fails |
| `Iso8601.PrintTm` | src/time_iso8601.c:306-320 | the buffer holds the seven fields with their separators and a terminator, nothing else changes |
| `Iso8601.GetUtcTimeString` | src/time_iso8601.c:284-322 | for every 64-bit count the buffer holds the text of its civil time |
| `Iso8601.ScanHead` | src/time_iso8601.c:213-256 | the moving cursor reads what the function of the whole text says, running past the end included |
| `Iso8601.ScanFraction` | src/time_iso8601.c:260-271 | the fraction counts only with a Z behind it |
| `Iso8601.ParseIso8601` | src/time_iso8601.c:180-282 | the returned 64-bit count, or the overrun, of the whole text |
| `Iso8601.ParsePointInTime` | src/time_iso8601.c:90-178 | count, second count and overrun of the generic parser on points in time |
| `Timestamps.ReadRender` | src/time_iso8601.c:200-281 | every spelling of a stamp, basic or extended or mixed, reads back as that stamp, whatever follows a Z |
| `Timestamps.RenderRead` | src/time_iso8601.c:200-281 | what the reader accepts is a spelling of what it read |
| `Timestamps.ParsersAgree` | src/time_iso8601.c:90-281 | on fixed-width texts each parser yields exactly what the grammar reading is worth to it |
| `Timestamps.AcceptedLanguage` | src/time_iso8601.c:200-281 | each parser accepts exactly the spellings of the stamps it takes, all spellings of a stamp with one value |
| `Timestamps.ZeroMeans` | src/time_iso8601.c:90-281 | on fixed-width texts either parser returns something other than 0 exactly for the spellings of the stamps it takes, the epoch excepted |
| `Timestamps.ParsersCompared` | src/time_iso8601.c:90-281 | the two parsers return the same nonzero value exactly on the fraction-and-Z form |
| `Timestamps.InstantBound` | src/time_iso8601.c:221-281 | no four-digit year leaves the signed 64-bit range |
| `Timestamps.MidnightMeans` | src/time_iso8601.c:200-281 | a bare date is its midnight, a time without seconds its full minute |
| `Timestamps.IsoTimeMeans` | src/time_iso8601.c:90-178 | the second count of the generic parser is that of the date and time with seconds that the text begins with, whatever follows |
| `Timestamps.IsoTimeOfDate` | src/time_iso8601.c:90-178 | and that of midnight for a text that is a date only |
| `RoundTrip.PrintThenParse` | src/time_iso8601.c:180-322 | for every 64-bit count, parsing the printed text never overruns, and returns the count if and only if it is at most 253402300799999 |
| `RoundTrip.OnlyTheYear` | src/time_iso8601.c:180-282 | parsing text in the printer's layout can go wrong in the year only |
| `RoundTrip.PrintOrder` | src/time_iso8601.c:284-322 | up to year 9999 an earlier instant prints earlier in the dictionary |
| `RoundTrip.PrintShape` | src/time_iso8601.c:284-322 | up to year 9999 the text has 24 characters, separators at their places and digits everywhere else |
| `Durations.ScanDuration` | src/time_iso8601.c:35-89 | for every text that begins with P, the length of the one component sequence it spells, or 0 if it spells none |
| `Durations.ParseIso8601Generic` | src/time_iso8601.c:17-178 | duration or point in time by the first character, with the results of either branch |
| `Durations.SpellsUnique` | src/time_iso8601.c:35-89 | a text spells at most one sequence of components |
| `Durations.LastMeans` | src/time_iso8601.c:35-89 | of the components of one unit the last one counts, and a unit that does not occur counts nothing |
| `Durations.SecondsAdd` | src/time_iso8601.c:87-89 | a duration is as long as it takes to get from a time to the time with its components added |
| `Durations.AdmitsInOrder` | src/time_iso8601.c:9-15 | the flag masks let a component in exactly if its unit may follow: D? H* M? S? |
| `Durations.Turn` | src/time_iso8601.c:44-85 | a turn of the scan extends the sequence by one component, or no sequence spells the text |
| `BitStrings.PrintBitString` | src/client_handler.c:371-382 | 2n bytes hold n bits with commas between them and a terminator |
| `BitStrings.BitTextInjective` | src/client_handler.c:371-382 | different bit strings print differently |
| `BitStrings.ParseBitString` | src/iec61850_server_defs.c:184-216 | the parser as written never returns a positive count, and ends without a result exactly on pairs of a character other than 1 and a comma |
| `BitStrings.PrintedRefused` | src/iec61850_server_defs.c:184-216 | no printed bit string gets through the parser as written, not even to its missing return |
| `BitStrings.ParseBitStringRepaired` | src/iec61850_server_defs.c:184-216 | a variant with its two tests put right returns the bits of every printed bit string and refuses every other text |
| `NodeTree.GetServerNode` | src/iec61850_server_defs.c:226-235 | the ancestor directly below the root, if its key marks a server |
| `CText.Strchr` | src/dataset_handler.c:54-68 | the first occurrence behind a cursor, or none |
| `CText.ReplaceAll` | libiec61850/src/common/string_utilities.c:140-149 | one pass replaces every occurrence and nothing else |
| `CText.ReplaceEach` | src/report_handler.c:17-48 | searching anew after each replacement ends with every occurrence replaced |
| `CText.ReplaceUndone` | src/report_handler.c:33-48 | replacing back undoes a replacement exactly if the new character did not occur before |
| `References.WalkInPlace` | src/dataset_handler.c:86-125 | cutting the string at its dots and descending is the walk over the components |
| `References.ResolveInPlace` | src/dataset_handler.c:61-125 | device, logical node and walk, on the string as it was before it was cut |
| `References.GetDANode` | src/dataset_handler.c:46-129 | the node a member reference resolves to from any node of the server |
| `Resolution.WalkFinds` | src/dataset_handler.c:86-125 | the walk over base names ends at the path exactly if nothing on it is shadowed |
| `Resolution.ResolveMember` | src/dataset_handler.c:46-129 | cutting a reference gives back the parts it was built from |
| `Resolution.ResolveIffUnshadowed` | src/dataset_handler.c:46-129 | a path's own reference resolves to exactly that path if and only if no constrained key on it has a plain sibling |
| `Resolution.ResolveSound` | src/dataset_handler.c:46-129 | whatever any reference resolves to is a node of the asking node's server whose dotted path is the reference up to the bracket |
| `Discovery.DiscoverEntries` | src/client_handler.c:1148-1249 | the recursive discovery builds the tree that the function of the model describes |
| `Discovery.CreateDANode` | src/client_handler.c:907-1051 | a data attribute node with its constraint, reference and actions, unless it exists |
| `Discovery.CreateDONode` | src/client_handler.c:870-905 | a data object node with its reference, unless it exists |
| `Discovery.HandleControllableNode` | src/client_handler.c:249-340 | the control node and the reference it needs, once |
| `Discovery.CreateValueNode` | src/client_handler.c:649-801 | the value node, with a write action exactly for writable constraints |
| `Discovery.GrowNodeGrown` | src/client_handler.c:1148-1249 | discovering an entry adds nodes below its parent only and changes none that were there |
| `DiscoveredTree.GrowNodeInv` | src/client_handler.c:1205-1243 | for every coherent model, each discovered attribute stores the reference of its own path |
| `DiscoveredTree.GrowAllInv` | src/client_handler.c:977-999 | the same for the whole directory of a node |
| `DiscoveredNames.GrowAllNamed` | src/client_handler.c:1148-1249 | for a well-named model nothing is shadowed and every entry is built, leaf values included |
| `ServerDiscovery.CreateDatasetReportNodes` | src/client_handler.c:1392-1485 | the four folders and the description |
| `ServerDiscovery.DiscoverObjects` | src/client_handler.c:1534-1550 | the data objects of a logical node, each created and then discovered |
| `ServerDiscovery.Discover61850Server` | src/client_handler.c:1488-1550 | the discovery of all devices, logical nodes and data objects, on any tree without nodes for those devices, follows no null node and builds what the function of the model describes |
| `ServerDiscovery.StoredReferenceResolves` | src/dataset_handler.c:46-129 | in an ordered tree, Object[FC] of an attribute resolves to exactly that attribute from any node under its server |
| `ServerDiscovery.DiscoveryResolves` | src/client_handler.c:1148-1249 | discovering any well-named model keeps what was there, builds every entry, and every stored reference leads back to its node |
| `ServerDiscovery.OkIsFollowable` | src/client_handler.c:1512-1550 | every well-named model meets what the discovery needs in order to follow no null node |
| `DiscoveredExact.DiscoveryExact` | src/client_handler.c:1148-1249 | discovery of a well-named model leaves exactly the nodes the model calls for, at every depth: each device, logical node, object and attribute with its own children and what they hold, control nodes and value nodes where they belong, and no other child of any of them |
| `DiscoveredExact.ControlAndValue` | src/client_handler.c:249-340 | of those nodes exactly the objects whose directory makes them controllable and lists an Oper have a control node, with the reference it needs, and exactly the leaf attributes a value node, writable exactly if the constraint allows it |
| `DiscoveredExact.GrowAllExact` | src/client_handler.c:1148-1249 | each entry of a directory becomes such a node, and its object gains their keys and, if operable, the two control children, nothing else |
| `DiscoveredExact.GrowAllApart` | src/client_handler.c:1148-1249 | discovering a directory leaves everything at and below a child it does not list as it was |
| `DiscoveredExact.EntryParts` | src/client_handler.c:1205-1228 | an entry name[FC] is the attribute name with that constraint, an entry without a bracket an object |
| `ServerDiscovery.TwinLost` | src/dataset_handler.c:86-125 | in every tree with right references, an attribute with a plain sibling of its own name is not found by its stored reference |
| `ServerDiscovery.TwinModelLost` | src/client_handler.c:1148-1249 | discovering any object whose directory lists one name plain and constrained builds the constrained attribute and stores a reference that leads astray |
| `ServerDiscovery.TwinExample` | src/client_handler.c:1148-1249 | such a model: the entries D and D[ST] of one object |
| `DataSets.Folders.CreatePrepDatasetNode` | src/dataset_handler.c:437-534 | a data set is staged exactly if its key is in neither folder |
| `DataSets.Folders.AddDAToDS` | src/client_handler.c:804-841 | the attribute's full reference is staged under its key, once |
| `DataSets.Folders.RmMemberPrepDs` | src/dataset_handler.c:325-335 | one member leaves the staged data set |
| `DataSets.Folders.RemovePrepDs` | src/dataset_handler.c:378-386 | one staged data set goes |
| `DataSets.Folders.CreateDsOnServer` | src/dataset_handler.c:401-435 | what is sent is the member list, and what changes follows from the server's answers |
| `DataSets.Folders.RemoveDataset` | src/dataset_handler.c:174-189 | a data set goes exactly if the server deleted it |
| `DataSets.Folders.DiscoverDataSets` | src/dataset_handler.c:536-569 | one node for each data set the server lists, the first of a key |
| `DataSets.Folders.GetDataSetNodeFromRef` | src/dataset_handler.c:153-163 | the data set under the rewritten key |
| `DataSets.Reachable` | src/dataset_handler.c:437-447 | in every reachable state no key is in both folders, and every data set and member sits under the key of its reference |
| `DataSets.CreateMovesOneKey` | src/dataset_handler.c:401-435 | a successful create moves exactly one key across, every other answer changes nothing |
| `DataSets.DsKeyMeans` | src/dataset_handler.c:437-443 | a key has the prefix of its folder and no slash, and references without a dollar sign never share one |
| `DataSets.PrepareStages` | src/dataset_handler.c:437-534 | preparing stages an empty data set under the key of its reference, unless either folder has that key |
| `DataSets.RemoveTakesMember` | src/dataset_handler.c:325-335 | removing a member takes exactly that one away |
| `DataSets.RemoveTakesStaged` | src/dataset_handler.c:378-400 | removing a staged data set takes exactly that one away |
| `DataSets.RemoveTakesCreated` | src/dataset_handler.c:174-189 | removing a data set on the server takes exactly that one away, and nothing if the server refuses |
| `DataSets.DiscoverRecords` | src/dataset_handler.c:536-569 | discovery empties the staged folder and records exactly the listed data sets: under each key the first of that key, with its reference, members and whether it can be deleted |
| `DataSets.StagedIsLive` | src/dataset_handler.c:325-376 | over every run the staged members are exactly the references added and not removed since, where an addition counts unless another live reference has its member key |
| `DataSets.SentIsLive` | src/dataset_handler.c:401-420 | over every run the list sent to the server is exactly those, each once |
| `DataSets.AddedIsStaged` | src/dataset_handler.c:336-376 | an added reference is staged afterwards if and only if no other live reference has its member key |
| `DataSets.NothingRefused` | src/dataset_handler.c:336-376 | over every run whose references have no dollar sign, every addition to a staged data set is staged |
| `DataSets.RefusedRun` | src/dataset_handler.c:336-376 | a run that refuses an addition: x$y/z behind x/y$z |
| `DataSets.MemberKeyInjective` | src/dataset_handler.c:336-342 | references without a dollar sign never share a member key |
| `Choices.EnumStr` | src/dataset_handler.c:15-37 | the loop builds the bracketed list, the last comma turned into the bracket |
| `Choices.GetPrepDSListEnumStr` | src/dataset_handler.c:15-37 | the staged data sets among the children, in the order of visit |
| `Choices.GetDataSetListEnumStrForRCB` | src/report_handler.c:49-73 | the references of the data sets in the spelling of control blocks |
| `Choices.ConvertDataSetRef` | src/report_handler.c:33-40 | dots become dollar signs |
| `Choices.OfferedIff` | src/dataset_handler.c:15-37 | splitting the text gives the entries if and only if none contains a comma, and each single entry is offered if and only if it contains none |
| `Choices.EnumTextReads` | src/dataset_handler.c:15-37 | the text is enum[...] with the joined entries between the brackets, and nothing between them without entries |
| `Choices.PickStaged` | src/dataset_handler.c:15-37 | in every reachable state there is one entry for each staged data set, it leads to the key again, and it is offered whole exactly if it contains no comma |
| `Choices.PickAdds` | src/client_handler.c:804-841 | in every reachable state, adding a member with an entry adds its key to the data set the entry stands for and changes no other |
| `Choices.LookupFindsKey` | src/dataset_handler.c:153-163 | a reference in the control block's spelling is found again if and only if it had no dollar sign |
| `Choices.PickForRcb` | src/report_handler.c:302-326 | in every reachable state there is one entry for each data set of the server, offered whole exactly if it contains no comma, and finding its data set exactly if the reference had no dollar sign |
| `Reports.SetValueNodeFromMMS` | src/client_handler.c:342-408 | a supported element is shown in its node, any other changes nothing |
| `Reports.RouteMembers` | src/client_handler.c:2032-2050 | after the loop every node shows the last included element that targets it, all others are as before |
| `Reports.ReportCallback` | src/client_handler.c:1993-2054 | the same for the data set the control block names; without it nothing changes |
| `Reports.PickThenReport` | src/report_handler.c:302-326 | in every reachable state and after any history of the control block, once an entry is picked a report is routed to the members of the data set the entry stands for |
| `Reports.ReportShowsAttributes` | src/client_handler.c:1993-2054 | on a discovered tree, for any member list, the value node of each included attribute shows the last element included for it and every other node is unchanged |
| `Reports.ReportReachesAttribute` | src/client_handler.c:1993-2054 | in particular an included attribute shows its element, unless a later slot is for the same attribute |
| `Reports.ReportTellsAttribute` | src/client_handler.c:342-408 | for every supported type the value node of an included attribute gives the element back: the same number, truth value or text, a time whose text parses to the same instant up to the end of year 9999, a bit string whose bits stand at the even places |
| `Reports.ReportLeavesOthers` | src/client_handler.c:1993-2054 | a node for which no supported element is included stays as it is |
| `RcbMirror.RcbNode.SetNodeRCBValues` | src/report_handler.c:176-203 | the eight displayed fields are those of the cached block |
| `RcbMirror.RcbNode.SetAction` | src/report_handler.c:247-489 | cache, display and server after a set action, its write, stored or not, and its recovery read |
| `RcbMirror.RcbNode.ReadRCBAction` | src/report_handler.c:204-225 | a successful read makes all three copies the server's |
| `RcbMirror.CachedIsOutstanding` | src/report_handler.c:176-489 | in every reachable state the display equals the cache, and the cache is the server's block with the outstanding settings applied: those the server did not store and whose recovery read failed, and which nothing has put right |
| `RcbMirror.CopiesEqualIff` | src/report_handler.c:176-489 | in every reachable state all three copies are equal if and only if every outstanding setting names the value the server has |
| `RcbMirror.MirrorSafe` | src/report_handler.c:176-489 | in every reachable state the cache equals the server in every field without an outstanding setting |
| `RcbMirror.MirrorExact` | src/report_handler.c:176-489 | all three copies are equal unless some setting was neither stored by the server nor recovered by a read |
| `RcbMirror.DoubleFailureDiverges` | src/report_handler.c:247-271 | after any run, a set that is neither stored nor recovered leaves cache and server equal exactly if it and every other outstanding setting name the values the server has |
| `RcbMirror.ServerChangesNamedField` | src/report_handler.c:247-489 | an action changes the server's block in the field it names only, and exactly if the server stores the value, whatever it answers |
| `RcbMirror.SetTakesEffect` | src/report_handler.c:247-489 | in every run, for each of the seven settings, the named field of the cache gets the value given, and that of the server exactly if it is stored, numbers modulo 2 to the 32nd, no other field of either changes, and after an error that is read back the cache is the server's block |
| `RcbMirror.ReadTakesEffect` | src/report_handler.c:204-225 | a successful read makes the cache the server's block; a failed one, and asking for reports, change nothing |
| `RcbMirror.DisplayShows` | src/report_handler.c:176-203 | in every reachable state the six plain fields shown are those of the cache, and the two masks are shown by the names of their options |
| `RcbMirror.MaskTextInjective` | src/report_handler.c:98-142 | the text of a mask tells exactly which options it holds |
| `ServerNodes.RemoveData` | src/client_handler.c:1659-1680 | what stays are exactly the marked children, with the order of the deferred releases |
| `ServerNodes.Gateway.ResponderInitClient` | src/client_handler.c:1850-1991 | a new server with its five children and its connection, unless the name is taken |
| `ServerNodes.Gateway.InvokeAddServer` | src/add_server.c:8-39 | a server is added exactly if all three parameters are there |
| `ServerNodes.Gateway.RemoveServerNode` | src/client_handler.c:1682-1699 | node and connection go together |
| `ServerNodes.Gateway.EditServerAction` | src/client_handler.c:1701-1745 | unchanged, refused, or removed and added anew |
| `ServerNodes.Gateway.RemoveAllDataModel` | src/client_handler.c:1659-1680 | the node loses its data children only |
| `ServerNodes.Gateway.IsDiscovered` | src/client_handler.c:1645-1658 | true exactly for a server with a child that is not marked |
| `ServerNodes.Gateway.DiscoverAction` | src/client_handler.c:1809-1848 | folders and devices appear exactly on an undiscovered server |
| `ServerNodes.Reachable` | src/client_handler.c:1645-1991 | in every reachable state each server keeps its five children, is discovered exactly if the four folders exist, and the connections are those of the live servers |
| `ServerNodes.TreeChildren` | src/client_handler.c:1392-1520 | the children the life cycle gives a discovered server are those discovery adds to it in the node tree |
| `ServerNodes.ClearUndoesDiscover` | src/client_handler.c:1659-1680 | clearing after discovery leaves the node as it was when added and everything else untouched |
| `ServerNodes.EditUnchanged` | src/client_handler.c:1720-1738 | an edit changes nothing exactly if a parameter is missing, or host, port and the prefixed key are submitted as they are |
| `ServerNodes.EditSameNameRecreates` | src/client_handler.c:1723-1730 | an edit with the server's own name and nothing changed replaces the node by an undiscovered one |
| `ServerNodes.EditLosesServer` | src/client_handler.c:1723-1730 | an edit keeps the number of servers unless another one has the new name, then it loses the edited one |
| `ServerNodes.ConnectionsKnown` | src/client_handler.c:1850-1991 | in every reachable state the servers are those the events leave, and each is connected to the host and port of the last Add or Edit that made its node |
| `ServerNodes.AddConnects` | src/client_handler.c:1981-1989 | an addition with all parameters and a free name makes an undiscovered node connected to the given host and port, any other changes nothing |
| `ServerNodes.EditConnects` | src/client_handler.c:1720-1738 | an edit that changes something, to a free name or the own one, connects the new node to the new host and port |
| `ServerNodes.RemoveForgets` | src/client_handler.c:1682-1699 | a removal takes exactly that node away with its connection |
| `ServerNodes.DiscoverAdds` | src/client_handler.c:1809-1848 | discovering an undiscovered server adds the four folders and one child for each device, and nothing to a discovered one |
| `ServerNodes.ReleasedOnce` | src/client_handler.c:1659-1680 | every removed child is released exactly once if and only if the children that stay are visited first |
| `DirtyFlags.ReportControlBlock.SetField` | libiec61850/dotnet/IEC61850forCSharp/ReportControlBlock.cs:452-712 | a setter changes its field and its flag |
| `DirtyFlags.ReportControlBlock.ParametersMask` | libiec61850/dotnet/IEC61850forCSharp/ReportControlBlock.cs:327-369 | the sum of weights is the number whose bits are the flagged fields, within 15 bits |
| `DirtyFlags.ReportControlBlock.SetRCBValues` | libiec61850/dotnet/IEC61850forCSharp/ReportControlBlock.cs:325-387 | mask sent, fields stored, all flags cleared even on failure, handler left alone |
| `DirtyFlags.ReportControlBlock.GetRCBValues` | libiec61850/dotnet/IEC61850forCSharp/ReportControlBlock.cs:292-300 | a successful read takes over the server's block and leaves the flags |
| `DirtyFlags.ReportControlBlock.InstallReportHandler` | libiec61850/dotnet/IEC61850forCSharp/ReportControlBlock.cs:266-285 | the handler is replaced on every call, the connection is asked once, under the report identifier of that moment |
| `DirtyFlags.SentMask` | libiec61850/dotnet/IEC61850forCSharp/ReportControlBlock.cs:325-378 | over every run a bit of the mask is set exactly if its field was set since the send before; ConfRev, SqNum and ResvTms never are |
| `DirtyFlags.MaskTable` | libiec61850/dotnet/IEC61850forCSharp/ReportControlBlock.cs:327-369 | which field each bit of the next mask stands for, bit by bit |
| `DirtyFlags.UnflaggedEqualIff` | libiec61850/dotnet/IEC61850forCSharp/ReportControlBlock.cs:292-378 | over every run a field read or set, without a flag, has the server's value if and only if its last send did not fail to store it, or it had been read back, or the server has the last value set all the same |
| `DirtyFlags.SuccessfulSendsAgree` | libiec61850/dotnet/IEC61850forCSharp/ReportControlBlock.cs:292-378 | over every run without a failed send, every field read or set, without a flag, has the server's value |
| `DirtyFlags.LostBufferTime` | libiec61850/dotnet/IEC61850forCSharp/ReportControlBlock.cs:373-378 | a run that ends in different values: a new buffer time whose send fails |
| `DirtyFlags.PendingValue` | libiec61850/dotnet/IEC61850forCSharp/ReportControlBlock.cs:292-378 | a flagged or lost field holds the last value set, or the server's if a read came since |
| `DirtyFlags.SendDelivers` | libiec61850/dotnet/IEC61850forCSharp/ReportControlBlock.cs:325-378 | a successful send stores the last value set if and only if no read came in between or the server had it already |
| `DirtyFlags.FailedSendDiverges` | libiec61850/dotnet/IEC61850forCSharp/ReportControlBlock.cs:373-378 | after a failed send that did not store a field, whatever is sent later, without a read or a new value both sides keep their values and differ exactly if the value set was new |
| `DirtyFlags.HandlerIsLast` | libiec61850/dotnet/IEC61850forCSharp/ReportControlBlock.cs:266-285 | over every run reports go to the handler given last |
| `DirtyFlags.HandlerStays` | libiec61850/dotnet/IEC61850forCSharp/ReportControlBlock.cs:380-386 | over every run an installed handler stays installed under the report identifier of that moment |
| `DirtyFlags.InstallsUnderIdentifier` | libiec61850/dotnet/IEC61850forCSharp/ReportControlBlock.cs:266-285 | the first installation asks the connection under the report identifier the block has then |
| `BeagleDemo.Demo.ConnectionIndicationHandler` | libiec61850/demos/beaglebone/beagle_demo.c:37-54 | the controlling client's disconnect gives control back |
| `BeagleDemo.Demo.PerformCheckHandler` | libiec61850/demos/beaglebone/beagle_demo.c:56-74 | the first client takes control, even with a test; only its own commands that are no tests are accepted |
| `BeagleDemo.Demo.ControlHandlerForInt32Controls` | libiec61850/demos/beaglebone/beagle_demo.c:153-171 | a counter reset that is no test sets the counter |
| `BeagleDemo.Demo.Int32WriteAccessHandler` | libiec61850/demos/beaglebone/beagle_demo.c:175-203 | negative times and other attributes are refused |
| `BeagleDemo.Demo.LoopTurn` | libiec61850/demos/beaglebone/beagle_demo.c:278-299 | a turn toggles, counts and sets the deadline exactly if automatic and due |
| `BeagleDemo.Modes` | libiec61850/demos/beaglebone/beagle_demo.c:27-74 | in every run automatic mode holds exactly while no client controls, and the times are never negative |
| `BeagleDemo.ExclusiveControl` | libiec61850/demos/beaglebone/beagle_demo.c:37-74 | between accepted commands of different clients the first has disconnected |
| `BeagleDemo.ControlHasCause` | libiec61850/demos/beaglebone/beagle_demo.c:37-74 | a client controls exactly if a check of its own found nobody in control and it has not disconnected since |
| `BeagleDemo.AcceptedMeans` | libiec61850/demos/beaglebone/beagle_demo.c:56-74 | a check is accepted exactly if it is no test and leaves its own client in control |
| `BeagleDemo.ToggleSpacing` | libiec61850/demos/beaglebone/beagle_demo.c:278-299 | consecutive toggles are at least the time in force at the earlier one apart, alternate the LED, and happen without a controlling client |
| `BeagleDemo.TurnFlips` | libiec61850/demos/beaglebone/beagle_demo.c:278-299 | the LED changes exactly if nobody is in control and the deadline has come, and the next deadline is the time in force for the new state later |
| `BeagleDemo.FirstFlip` | libiec61850/demos/beaglebone/beagle_demo.c:278-299 | the first change comes a second after the start at the earliest and switches the LED on |
| `BeagleDemo.CounterCounts` | libiec61850/demos/beaglebone/beagle_demo.c:149-299 | the counter is the last reset value plus the rising edges since, up to a number of times round the 32-bit range |
| `JournalPaging.ReadJournal` | libiec61850/examples/mms_utility/mms_utility.c:243-281 | the loop ends, prints the contiguous run of the journal up to the end of the pages asked for, and meets a missing or empty page if and only if one of them is not supplied |
| `JournalPaging.DeliveryIsEnough` | libiec61850/examples/mms_utility/mms_utility.c:243-281 | a server whose pages fit, that returns entries wherever the journal goes on and announces no more than there is, supplies every page, each where the one before it ended |
| `JournalPaging.AnnouncedIsRead` | libiec61850/examples/mms_utility/mms_utility.c:243-281 | if it announces all there is, the run ends with the journal |
| `JournalPaging.RunPrintsOnce` | libiec61850/examples/mms_utility/mms_utility.c:243-281 | a run of a journal with distinct keys prints no entry twice and is that piece of the journal |

## Left out

- The DSLink SDK, JSON, websocket replies, logging, and the `$name`, `$type` and action metadata of nodes.
- MMS, TCP and the client connection: service outcomes are parameters of methods and events.
- Allocation failures, reference counts, freeing (apart from the order of releases when a server is cleared) and threads.
- C buffer sizes: buffers are long enough for the strings the code copies into them.
- Floating-point values, LED files, the sine signals and sleeping.
- Generated static models, the other examples and the remaining P/Invoke wrappers.
- `controlAction` and its dispatch on control models; the text that explains a functional constraint, and the type-name tables.
- The nodes that discovery makes for report control blocks and for the members of data sets in the tree; the two data-set folders are kept in `DataSets.Folders`, the data a report needs in `Reports`.
- `getFunctionalConstraint` has a branch without a return at src/iec61850_server_defs.c:169; `Discovery.FcOf` is the intended result.
- Discovery.DiscoverEntries: the server's directory answers are one finite tree that does not change while it is read, and every constrained entry has a variable specification, which the code follows unchecked.
- ServerDiscovery.Discover61850Server: requires what keeps the code from following a null node: no node for the devices yet, distinct names of devices, of logical nodes and of data objects, plain data-object names, and none of them called like one of the two children of a logical node. The nodes for data sets and report control blocks that the same loop makes are left out.
- ServerDiscovery.DiscoverObjects: the same conditions on data objects.
- DiscoveredExact.DiscoveryExact: as ServerDiscovery.DiscoveryResolves.
- ServerDiscovery.DiscoveryResolves: the model is well named (no separator in a name, no housekeeping key as a name, no base name both plain and constrained among siblings) and coherent (below a constrained attribute the server lists that constraint only).
- BitStrings.PrintBitString: requires at least one bit, because for none the code writes in front of its buffer.
- Digits.IntToStringBuffer: the value is not negative, which holds for every caller in the gateway.
- Discovery.CreateDANode: the node called Type has no value, because the explaining text is left out.
- Durations.ParseIso8601Generic: as Durations.ScanDuration.
- Durations.ScanDuration: numbers and the length are unbounded, where the code wraps in the width of its integers.
- DataSets.Folders.AddDAToDS: the attribute's reference contains a slash, as every stored reference does; without one the code writes through a null pointer.
- Reports.ReportCallback: the report has one slot for each member of the data set, and times are 64-bit.
- RcbMirror.RcbNode.SetAction: one method stands for the seven set actions, which differ in the field only; option masks are sets of option names.
- DirtyFlags.ReportControlBlock.SetField: one method stands for the eleven setters; the fourteen flags are a set, and field values are texts.
- BeagleDemo.Demo.LoopTurn: the deadline is unbounded, where the code uses 64 bits.
- JournalPaging.ReadJournal: the journal does not change while it is read, and each page that is asked for begins where the one before it ended.
