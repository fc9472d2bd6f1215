# Fabric discovery, verified in Dafny

This project models the stateful algorithms of an Ethernet fabric discovery and topology tool and proves what they
are for. `dafny verify dfyconfig.toml` checks it. Objects that the program updates in place are classes, its loops are
loops, and each method is proved against functions and predicates about which the results are stated.

- **Port numbers** (`PortName`, `PortGroups`, `PortNumGen`, `PortOffsets`, `PortScan`, `PortUnique`, `PortWeights`,
  `PortTwins`, `PortOrder`, `PortRun`, `PortLimits`, `PortApart`, `PortLayout`, `PortExamples`). Names of switch ports
  are cut into segments, a digit segment is chosen as the number, names are grouped, groups are sorted on a linked
  list and shifted apart. The header promises a unique positive number per name. While the last range fits in 16 bits
  it holds exactly when no two names are twins; it is proved from that for names that read differently, and concrete
  runs show the conditions are needed and what they give. When two names share a number, which names are refused and
  which group comes first are also read off the segments.
- **Multicast routes** (`McFabric`, `McRoute`, `McTree`, `McCuts`, `McValidation`, `McTables`). A recursive walk over
  forwarding tables with marks, an explicit path and a hop bound. That it records nothing means that the group, as the
  walk sees it, is forwarded as a tree, and the other way round; what the walk does not see because it cuts 16-bit
  numbers to 8 bits is characterised. For a switch between adapters the verdict is stated in the fields of its tables.
- **Expected links** (`PortIds`, `ExpectedLinks`, `LinkSelectors`, `LinkResolution`, `LinkParser`). Links of the
  topology file compete for the links of the fabric. The first of the best matches owns each link at both ends,
  exactly unless some link names one port twice.
- **Topology validation** (`TopologyNodes`, `TopologyCheck`, `TopologyNames`, `TopologyTable`, `TopologyGraph`,
  `TopologyRules`, `TopologyValidation`). Growing port tables, a port-to-link table and a recursive graph search;
  success is characterised in the fields of links and nodes.
- **LIDs** (`LidIndex`, `LidTable`, `LidPorts`, `LidSearch`). A two-level table in which ports own whole power-of-two
  ranges, with refusal, rollback and displacement; the ordered map finds the same ports.
- **Links** (`FabricLinks`, `FabricData`, `Snapshot`). Mutual neighbours, from ports and five counters over any run,
  and the round trip through a snapshot.
- **Service channel tables** (`QosMaps`). A list of port masks and tables that is a map in which the last write wins,
  exactly unless a step neglects a port that is not counted.
- **XML** (`XmlParser`, `XmlDocument`, `XmlState`, `XmlWellMade`). The element stack: every started element is ended
  once, in order, wherever parsing stops; a document is parsed without failure exactly if its tree is well made, and
  then makes the calls its tree says.
- **Compressed files** (`BlockReader`). Reads of any size give consecutive pieces of the content.
- **Selections** (`Points`, `PortIterator`, `IteratorOrder`). What a point accepts, compressing it, and the resumable
  iterator.

`Options`, `OrderedKeys`, `Sequences` and `Widths` hold an optional value, the key order of the program's maps, facts
about sequences and integer widths.

## Where the code and its documentation differ

- Topology/port_num_gen.h promises a unique positive number for every name. The code needs more: see
  `PortUnique.WholeNumbersIffFits`, `PortTwins.UniqueIffNoTwins` and the runs in `PortLimits`. Repeated separators close
  a segment again, so `a1//` has three segments.
- The comment on valid selectors in Topology/topology.c:199-214 lists a port GUID with a port id; the code ignores the
  id (`LinkSelectors.GuidHidesPortId`).
- The two ends of a physical link are meant to point to one expected link (Topology/topology.c:478-493); a link that
  names one attached port twice breaks that (`ExpectedLinks.AgreesIffNeverReclaims`).
- The 16-bit size of an expected node's port table is cut for ports from 32768 on (`TopologyNodes.PreparedFitsIff`);
  validation is proved for smaller port numbers.
- The map of service channel tables counts only ports up to the node's port count cut to 8 bits, so a port of a switch
  with more than 255 ports, or one past the port count, can get another port's table (`QosMaps.PlainIffNothingNeglected`,
  `QosMaps.CutCountLosesPort`).
- The multicast walk cuts 16-bit entry ports and port counts to 8 bits, so it can take a link port for port 0 and pass
  over ports (`McCuts.SameIffNothingHidden`, `McValidation.Port256LooksLikePort0`, `McValidation.Of256PortsOneIsTried`).
- The parser expects elements without subfields to have no child elements (`XmlParser.StartKeepsIff`,
  `XmlParser.ChildOfLeafEndsEarly`).

## Conventions

- Hash keys are computed exactly; that different names, segments and groups have different keys is a hypothesis
  (`NoCollisions`), which `PortApart.SameNumberIffSameWeight` replaces by an exact condition for groups. A `cl_qmap` is a map visited in key order; `QUICK_LIST` and `DLIST` are sequences.
- Ports are values (node GUID, port number) where nothing in them changes, and objects holding the changing fields where
  something does. Modules that look at different fields of one C structure each declare the fields they use.
- What callbacks, expat and the inflater do is a parameter: the events of the parser carry the object a start function
  returns and whether a callback reports an error, and inflating is an unspecified function of bounded output.
- A port mask is the set of its ports. `lid | mask` is written out arithmetically.
- In Topology/focus.c:1537 the next port of a node list is stored through another member of a union; it is taken to be
  the same field.
- Overlapping copies inside one array move their bytes.

## Model

| member | source | states |
|---|---|---|
| PortName.CalStrKey | Topology/port_num_gen.c:163-170 | The loop computes the hash of an index and a text exactly, with signed characters, modulo 2^64. |
| PortName.ParsePortName | Topology/port_num_gen.c:172-268 | The character-by-character scanner returns the segments and status that the token reading of the name gives, for every name within C's defined behaviour. |
| PortName.TokensSpellTheName | Topology/port_num_gen.c:172-268 | The runs of a name, joined, are the name without its separators; the extra segments of repeated separators add nothing. |
| PortTwins.TokensReadTheirText | Topology/port_num_gen.c:236-262 | The value of each token that is not a repeat is the decimal value of its own text, or absent for letters. |
| PortNumGen.PnGen.UpdateCount | Topology/port_num_gen.c:270-285 | One more occurrence of a key, in an 8-bit counter. |
| PortOrder.CountsAreTotals | Topology/port_num_gen.c:270-313 | After any registrations each segment counter is the number of occurrences of the segment over all names, modulo 256. |
| PortNumGen.PnGen.Register | Topology/port_num_gen.c:287-313 | Registering parses, counts and stores a name as the specification says, with the right status for a name without a number or a duplicate. |
| PortUnique.RegisteredPorts | Topology/port_num_gen.c:287-313 | After any registrations the map holds exactly the registered names' keys, each with the name's own segments. |
| PortNumGen.PnGen.SelectSegment | Topology/port_num_gen.c:419-443 | The loop picks the segment the specification picks. |
| PortRun.PickIffLeastFrequent | Topology/port_num_gen.c:419-443 | A segment is picked exactly when it is the last of the least frequent digit segments. |
| PortNumGen.PnGen.NumberPorts | Topology/port_num_gen.c:409-520 | One pass over the ports in key order gives each its number and group, collects the groups and notices conflicts. |
| PortScan.NumbersAreChoices | Topology/port_num_gen.c:419-464 | When the pass has not given up, every port has its own choice recorded and no port had a number out of range. |
| PortScan.ConflictIffClash | Topology/port_num_gen.c:444-464 | A conflict is noticed exactly when two ports want one number or one port wants 0. |
| PortScan.GroupsHoldPorts | Topology/port_num_gen.c:465-515 | Each numbered port lies in the range of its group, and each group's range ends at one of its ports. |
| PortGroups.CompareIsTotalOrder | Topology/port_num_gen.c:324-340 | compare_groups is antisymmetric and transitive, and gives 0 only for equal count, minimum and key. |
| PortGroups.SortGroups | Topology/port_num_gen.c:346-389 | The in-place insertion sort terminates and leaves a well-formed doubly linked list with the right head, of the same cells, sorted, with the same values. |
| PortGroups.MoveBack | Topology/port_num_gen.c:352-380 | Taking a cell out while walking and putting it back leaves the list linked, the cell moved to just after the last smaller one. |
| PortGroups.SortedIsUnique | Topology/port_num_gen.c:324-389 | With distinct group keys there is only one sorted order, so the sort's result is determined. |
| PortGroups.GroupList.AddPort | Topology/port_num_gen.c:476-515 | A port widens the group with its key, or starts a new group at the end; no other group changes. |
| PortGroups.GroupList.SetOffsets | Topology/port_num_gen.c:522-541 | Walking the list sets the greedy offsets of the specification. |
| PortOffsets.OffsetsSpread | Topology/port_num_gen.c:522-541 | The shifted ranges are positive, disjoint and ascending in list order; the first group moves only if it contains 0. |
| PortOffsets.OffsetsAreLeast | Topology/port_num_gen.c:522-541 | No offsets with that effect are smaller for any group. |
| PortOffsets.OffsetsKeepGroups | Topology/port_num_gen.c:522-541 | Offsets change nothing else in a group, so the order inside it stays. |
| PortNumGen.PnGen.Process | Topology/port_num_gen.c:394-562 | The whole of pn_gen_process has the effect of the specification, on the ports and on its status, whether or not it gives up. |
| PortNumGen.PnGen.GetPort | Topology/port_num_gen.c:564-585 | The number returned is the processed number and offset cut to 16 bits, 0 for a name that is not registered; processing happens first if it has not. |
| PortUnique.AcceptedIsNumbered | Topology/port_num_gen.c:419-464 | If every registration and the pass succeed, every registered name has a number below the maximum. |
| PortUnique.SameNumberIff | Topology/port_num_gen.c:394-562 | Before the cut to 16 bits two names get one number exactly when the same number and group were decided for both. |
| PortUnique.RawIsPositive | Topology/port_num_gen.c:522-556 | Before the cut every number is positive. |
| PortUnique.WholeNumbersIffFits | Topology/port_num_gen.c:564-585 | No number is cut exactly when the last shifted range ends below 65536. |
| PortUnique.RoomFits | Topology/port_num_gen.c:522-585 | A condition on the groups themselves: if their widths, laid end to end from the highest start, stay below 65536, the last range fits. |
| PortUnique.FinalKeysDistinct | Topology/port_num_gen.c:476-515 | The final groups have distinct keys. |
| PortTwins.SameDecisionIffTwins | Topology/port_num_gen.c:419-474 | Without key collisions the same is decided about two names exactly when they agree in every segment but the number segment, and there in its value. |
| PortTwins.TwinsReadTheSame | Topology/port_num_gen.h:39-70 | Without adjacent separators such names differ only in separators and leading zeros. |
| PortTwins.UniqueIffNoTwins | Topology/port_num_gen.h:39-70 | Without collisions or a cut, all names get different positive numbers exactly when no two are such twins. |
| PortTwins.UniqueNumbers | Topology/port_num_gen.h:39-70 | The header's promise: without collisions, cuts, adjacent separators and names that read the same, every registered name gets a positive number of its own. |
| PortLimits.AdjacentSeparatorsCollide | Topology/port_num_gen.c:172-268 | Concrete names a1// and a1/1 read differently but get one number: the promise fails with adjacent separators. |
| PortLimits.NumbersRunOut | Topology/port_num_gen.c:522-585 | Concrete names a0, a65534, b1 are accepted, but b1 gets 65536, cut to 0: the numbers are not all positive without room in 16 bits. |
| PortLimits.ConditionsCanHold | Topology/port_num_gen.h:39-70 | The conditions of UniqueNumbers can hold together: the names 1 and 2 meet them all. |
| PortWeights.GroupKeyIsWeight | Topology/port_num_gen.c:464-474 | A group key is, in 64 bits, the number of base 31 whose digits are the keys of the other segments in their order. |
| PortApart.SameNumberIffSameWeight | Topology/port_num_gen.c:394-562 | Without any assumption on groups: two names get one number before the cut exactly when their number segments have one value and their other segments come to the same number of base 31 in 64 bits. |
| PortApart.OneSegmentApart | Topology/port_num_gen.c:464-541 | Accepted names with as many segments and the same number position that differ in the key of exactly one other segment get different decisions and numbers, as 31 is invertible modulo 2^64. |
| PortLayout.ParsedIff | Topology/port_num_gen.c:172-268 | A name is accepted exactly if it has at most eight segments and one of them is a number. |
| PortLayout.GivenUpIff | Topology/port_num_gen.c:444-463 | Processing is given up exactly when the number segment of some name is 65535 or more. |
| PortLayout.GroupsDescribe | Topology/port_num_gen.c:476-515 | Each group counts its ports, and its range starts at the least number one of them wants and covers them all; every numbered port has a group. |
| PortLayout.LargerGroupsFirst | Topology/port_num_gen.c:324-389 | When numbers conflict the names of a group with more ports get smaller numbers, and among groups of one size those of the group that starts first. |
| PortLayout.UnknownGetsZero | Topology/port_num_gen.c:564-585 | A name that was not registered gets 0, unless its key is another name's. |
| PortExamples.SuffixesDecide | Topology/port_num_gen.c:464-541 | A concrete run: 1a and 1b both want 1 and get 1 and 2. |
| PortExamples.ZeroIsShifted | Topology/port_num_gen.c:324-541 | A concrete run: a1 and b0 get 2 and 1, as the group that starts at 0 comes first and moves up by one. |
| PortOrder.OrderDoesNotMatter | Topology/port_num_gen.c:270-562 | Permuting the registrations leaves the model and every name's number unchanged. |
| PortRun.ProcessedAgain | Topology/port_num_gen.c:394-562 | Processing again after giving up changes nothing. |
| PortRun.NumberAll | IbaTools/ethxlattopology/ethportnum.c:102-150 | A whole run, registering all names and asking for all numbers, returns the specified numbers, positive and distinct under the conditions of UniqueNumbers. |
| McRoute.McWalker.IsMember | Topology/route.c:115-128 | The list search finds exactly the members. |
| McRoute.McWalker.CopyAndInsert | Topology/route.c:65-113 | A record is the path, copied, with the reason; what it says about its last hop holds and each hop follows from the one before. |
| McRoute.McWalker.Walk | Topology/route.c:138-341 | The walk terminates and restores the path. Nothing is recorded exactly when forwarding from here works and comes only to switches not seen before, each once; then exactly those are expanded, every end is counted and the status is success. Records stay truthful. |
| McRoute.McWalker.ExpandSwitch | Topology/route.c:265-341 | The loop over exit ports has the same contract for a switch that has just been marked. |
| McRoute.McWalker.TryExit | Topology/route.c:289-336 | One exit port: records exactly when the table entry is missing, the exit leads nowhere or the walk beyond it records. |
| McTree.FineIsClean | Topology/route.c:138-341 | If every path is under 64 hops and every node on it does the right thing, the recursive check holds. |
| McTree.CleanPath | Topology/route.c:138-341 | If the recursive check holds, every path is under 64 hops, ends at members and uses readable tables and live links. |
| McTree.ReachedOnceIffNoRepeats | Topology/route.c:254-266 | No two ways lead to one switch exactly when the walk's list of switches has no repeats. |
| McTree.WaysLead | Topology/route.c:289-336 | The k-th way in walk order leads to the k-th switch of the walk's list. |
| McTree.WaysAreAll | Topology/route.c:289-336 | Every way to a switch is in that list. |
| McTree.TreeIffCleanAndNoRepeats | Topology/route.c:344-377 | With the numbers cut or whole, the group is forwarded as a tree exactly when the recursive check holds and no switch repeats. |
| McCuts.SameIffNothingHidden | Topology/route.c:138-341 | The walk takes a node for what it is and tries its exits exactly unless a cut to 8 bits hides something: a link port number that is a multiple of 256 taken for port 0, or a used or missing table entry at a port passed over. |
| McCuts.SeenRightIffNothingHidden | Topology/route.c:138-341 | The walk sees every node the group comes to right exactly when no cut hides anything at any of them. |
| McCuts.VerdictIsTree | Topology/route.c:138-377 | Where no cut hides anything, forwarding as the walk sees it is a tree exactly when forwarding as it is is one. |
| McCuts.TreePassesIff | Topology/route.c:173-203 | A group forwarded as a tree passes exactly if everything the walk comes to and takes for port 0 is the end of a route at a member. |
| McCuts.SmallNumbersHideNothing | Topology/route.c:281-288 | With link port numbers and port counts below 256 no cut hides anything. |
| McValidation.ValidateMCRoutes | Topology/route.c:344-377 | No record and success exactly when the forwarding graph as the walk sees it, with entry ports and port counts cut to 8 bits, is a tree whose paths are under 64 hops and whose ends are members; the same of the graph as it is, where no cut hides anything. Each switch is expanded at most once; every record is a real chain of exits and neighbours from the start. |
| McValidation.Port256LooksLikePort0 | Topology/route.c:138-197 | A concrete fabric with link port number 256 that the walk accepts although the group comes to a switch without a table. |
| McValidation.HiddenYetRight | Topology/route.c:138-197 | A concrete fabric where a cut hides a switch and the verdict is right all the same, because the switch does as it should. |
| McValidation.Of256PortsOneIsTried | Topology/route.c:281-288 | A concrete switch with 256 ports that the walk accepts although it forwards the group to a dead port. |
| McTables.OtherMasksDoNotMatter | Topology/route.c:42-62 | Two fabrics that differ only in masks at offsets other than the group's have the same tree verdict. |
| McTables.StarIff | Topology/route.c:173-336 | In the fields of the switch: a switch between adapters forwards a group as a tree exactly if its top and capacity cover the group and, for every port, the table is there and a set bit (word ix / 64, bit ix % 64, at the group's offset) leads to a member over a live link or is an enhanced port 0 that is a member. |
| McTables.StarEnds | Topology/route.c:173-192 | Such a switch has exactly one route end for each bit of the group. |
| McTables.EachGroupHasItsMask | Topology/route.c:42-62 | A concrete fabric that is a tree for group 0xC001 and not for group 0xC000, whose mask leads to a dead port. |
| McTables.SecondWordIsRead | Topology/route.c:289-300 | A concrete switch with 70 ports whose exit 69 is bit 5 of the second word; it leads to adapter 2, so the group is a tree exactly if that is a member. |
| LinkSelectors.LookupNodeName | Topology/topology.c:173-186 | Finds the node of least GUID whose description agrees in 64 characters. |
| LinkSelectors.FindNodePortId | Topology/search.c:65-80 | Finds the least port number whose port id agrees in 16 characters. |
| LinkSelectors.FindPortGuid | Topology/search.c:147-158 | Finds the first listed port with the GUID. |
| LinkSelectors.ResolvePortSelector | Topology/topology.c:189-264 | The chain of attempts gives the node, port and level that the order of preference gives. |
| LinkSelectors.SelectedPortOnNode | Topology/topology.c:189-264 | The port found is an existing port of the node found; the levels say what was found. |
| LinkSelectors.GuidHidesPortId | Topology/topology.c:199-214 | Contrary to the comment on valid combinations, a node found by port GUID is never asked for a port id. |
| LinkSelectors.LinkLevelRanks | Topology/topology.c:269-285 | The level table is symmetric, and strictly better in one side is strictly better overall. |
| LinkSelectors.OnePortTwiceIff | Topology/topology.c:407-441 | A link resolves to one port twice exactly when both selectors are complete and name that port. |
| LinkSelectors.SwapIff | Topology/topology.c:407-441 | Swapping the selectors swaps the result, unless both are incomplete and name ports that are not neighbours. |
| LinkSelectors.FilledInAreNeighbors | Topology/topology.c:424-441 | A side that was filled in is the neighbour of the other. |
| LinkResolution.NeighborNodeSuffices | Topology/topology.c:436-441 | If one side came to port p and the other, complete, came to no port but to the node of p's neighbour, the link resolves to p and its neighbour, in either order. |
| LinkResolution.PhysicalIff | Topology/topology.c:424-441 | A link resolves to both ends of a physical link exactly when, in terms of what the selectors come to: one side came to its end, and the other is incomplete, came to the other end, or came to no port but the right node; of two incomplete sides the second gives way. |
| LinkResolution.OtherwiseAsSelected | Topology/topology.c:424-441 | If that holds of no physical link, a link keeps what its selectors came to, but an incomplete side facing a port has none. |
| LinkResolution.LevelsRankBySides | Topology/topology.c:269-285 | Levels run from 0 to 5 and rank links by their worse side first, then by the better one. |
| LinkResolution.CompleteIff | Topology/topology.c:287-299 | A selector is complete exactly if it has a port GUID, or a node by GUID or description and a port by number or id. |
| LinkResolution.SelectedNodeIff | Topology/topology.c:217-233 | A selector comes to the node it names by GUID, or else the least of those with its description, or else the node of the first port with its port GUID. |
| LinkResolution.SelectedPortIff | Topology/topology.c:234-263 | On that node: the port with the number; failing that, if the port GUID found the node, the port with the GUID, if not, the least with the id, or else the one with the GUID; failing that the only port. |
| LinkResolution.MatchesPortIff | Topology/topology.c:234-263 | The level is that of a port exactly if number, id or GUID picks out a port; being the only port does not count. |
| LinkResolution.MovedLinkIsFound | Topology/topology.c:407-493 | A concrete link that names port 9 of a node with ports 1 and 2 resolves through the node to the physical link, at level 4, and both ports point to it. |
| LinkParser.LinkTable.ResolveLink | Topology/topology.c:407-441 | The assignments that fill in a side give the specified resolution: both ends of a physical link exactly when the selectors mean it. |
| LinkParser.LinkTable.Contest | Topology/topology.c:443-471 | Ports sharing a link refuse a worse match and are unlinked for a better one; nothing else changes. |
| LinkParser.LinkTable.Take | Topology/topology.c:472-493 | The link gets its ports, and the ports the link exactly if they are free neighbours. |
| LinkParser.LinkTable.ResolvePorts | Topology/topology.c:407-494 | On the objects, resolving a link has exactly the effect of one step of the specification. |
| LinkParser.LinkTable.LinkXmlParserEnd | Topology/topology.c:496-518 | The end of a link element performs one step, or nothing if the element is not valid. |
| ExpectedLinks.StepKeeps | Topology/topology.c:443-493 | Any step but one that splits a pair keeps: best match owns each physical link at both ends, links lose their ports only to a better match, owners hold their ports. |
| ExpectedLinks.BestMatchesWin | Topology/topology.c:407-494 | After any run without such a step each physical link belongs, at both ends, to the first of the best of the links that resolved to exactly its two ports, and to none if there is none. |
| ExpectedLinks.SplitIffReclaims | Topology/topology.c:443-471 | A step splits a pair exactly when its link resolves to one attached port twice, better than every earlier match of that port's physical link. |
| ExpectedLinks.AgreesIffNeverReclaims | Topology/topology.c:443-493 | The two ends of every physical link agree after every step of a run exactly when no link of the run does that. |
| ExpectedLinks.OnePortNamedTwice | Topology/topology.c:453-470 | After a link between two ports and a better one that names the first port twice, one port of the pair points to a link and the other to none. |
| LinkSelectors.InputNamesOnePortTwice | Topology/topology.c:407-493 | A concrete fabric and two concrete links of the input that come to this. |
| LinkParser.ReadLinks | Topology/topology.c:387-518 | Reading a whole section of links leaves the state of the run; unless some link reclaims one port, each physical link then belongs at both ends to the first of its best matches. |
| TopologyNodes.PreparedFitsIff | Topology/topology.c:707-727 | Growing a port table keeps all its ports and a right count exactly when the new size is below 65536. |
| TopologyNodes.SmallPortsFit | Topology/topology.c:707-727 | Port numbers below 32768 never make the count wrong. |
| TopologyNodes.AddedIsFoundIff | Topology/topology.c:728-746 | An added port is found again exactly when the 16-bit count still covers it. |
| TopologyNodes.LargePortLost | Topology/topology.c:707-746 | Ports 39999 and 50000: the second is stored and then not found. |
| TopologyNodes.ExpectedNode.PrepareSize | Topology/topology.c:707-727 | The method grows the table as specified. |
| TopologyNodes.ExpectedNode.AddPort | Topology/topology.c:728-738 | A free number gets the port; a taken one is refused and keeps its port. |
| TopologyTable.FindExpectedNodeByNodeDesc | Topology/search.c:2160-2199 | Finds the first switch, then the first adapter, with the description, as the node type allows. |
| TopologyTable.LocateNode | Topology/topology.c:1116-1173 | The checks that only look at selector and node give the specified status and node; success means that the selector names that node in its own fields. |
| TopologyTable.TakePort | Topology/topology.c:1174-1194 | A port is taken exactly if no link has it and, under strict validation, it is listed; the whole table is as before but for that port. |
| TopologyTable.ValidateLinkPort | Topology/topology.c:1116-1204 | One end of a link: the status, the new table and the node the selector points to, which is the one it names. |
| TopologyTable.ResolveLinks | Topology/topology.c:1308-1364 | The loop over links succeeds exactly when the specified table can be filled, and then the ports show that table and the selectors point to their nodes. |
| TopologyCheck.FillIff | Topology/topology.c:1116-1204 | All ends can take their ports exactly when each names a (listed) port of an expected node and no two name the same; the table then holds exactly the ends, each with its link. |
| TopologyNames.CheckIff | Topology/topology.c:1116-1173 | In the fields of selector and nodes: an end is accepted exactly if it has a port number and names a node by GUID, or else by description (the first of the switches, or else of the adapters, as the type given allows), with equal types where both are given and equal descriptions where both are given besides a GUID. |
| TopologyNames.EndIff | Topology/topology.c:1116-1204 | Validation goes by exactly the node and port that the selector names in that sense. |
| TopologyRules.SoundIff | Topology/topology.c:1308-1364 | All ends fit exactly when both ends of each non-empty link name a (listed) port in that sense. |
| TopologyRules.DistinctIff | Topology/topology.c:1190-1194 | No port is claimed twice exactly when only one end of one link names any port. |
| TopologyRules.ConnectedIffUndivided | Topology/topology.c:1235-1279 | The nodes are connected exactly when, however they are divided in two, a link runs between the parts. |
| TopologyRules.WrongTypeFails | Topology/topology.c:1161-1167 | A node type given in the input that is not the node's is enough to break the rules. |
| TopologyValidation.PassesIff | Topology/topology.c:1281-1381 | What validation decides about links is exactly that they keep these rules. |
| TopologyValidation.PortZeroFitsIff | Topology/topology.c:1296-1307 | Port 0 of a switch fits exactly if an address is missing or its own is the node's without bits 30 and 31. |
| TopologyGraph.TopologyValidateLinkHelper | Topology/topology.c:1214-1232 | The recursive search terminates; it marks the node, marks only nodes reached from it, and leaves no neighbour of a newly marked node unmarked. |
| TopologyGraph.HolderJoins | Topology/topology.c:1222-1229 | A port's link joins its node to the node at the other end. |
| TopologyGraph.JoinedIsHeld | Topology/topology.c:1222-1229 | A node joined to another is at the end of a link at one of its ports. |
| TopologyValidation.ConnectedIffReached | Topology/topology.c:1235-1256 | The nodes are connected exactly when the root reaches them all. |
| TopologyValidation.TopologyValidateNoLinksDisjoint | Topology/topology.c:1235-1279 | Succeeds exactly when all nodes are connected, and marks exactly the nodes the root reaches. |
| TopologyValidation.TopologyValidate | Topology/topology.c:1281-1381 | At the strict levels validation succeeds exactly when there are links, port 0 addresses fit, both ends of every non-empty link name, in the fields of selectors and nodes, a (listed) port that no other end names, and no division of the nodes is without a link across; then ports, selectors and marks are as they should be. |
| LidIndex.LidMap.GetMapEntry | Topology/fabricdata.c:72-77 | Reads the holder of a LID out of the two levels; none above the maximum. |
| LidIndex.LidMap.SetMapEntry | Topology/fabricdata.c:79-94 | Sets or clears one LID and no other; a block is allocated only to hold something. |
| LidTable.FullRangeIffAligned | Topology/fabricdata.c:546-556 | A port owns the 2^LMC LIDs the count goes by exactly when its LID is aligned. |
| LidTable.RangeInMap | Topology/fabricdata.c:587-592 | A range that starts in the map ends in it. |
| LidTable.AddedIsSound | Topology/fabricdata.c:589-612 | Adding a port to a table of whole ranges, with the ports it overlaps removed, leaves a table of whole ranges. |
| LidTable.StageTaken | Topology/fabricdata.c:599-609 | In the middle of a claim a port that is met still holds its whole range, and removing it does not touch what was claimed. |
| LidTable.Undone | Topology/fabricdata.c:600-605 | Undoing a claim that met another port restores the table exactly. |
| LidTable.RemovedCounts | Topology/fabricdata.c:529-556 | Removing a listed port frees exactly 2^LMC LIDs. |
| LidTable.EligibleStates | Topology/fabricdata.c:577-587 | Up and dormant ports take part, ports that are down do not, and without a state only port 0 of a switch does. |
| LidTable.ContestedIffOverlap | Topology/fabricdata.c:589-612 | A range is contested exactly when it meets the range of another listed port. |
| LidTable.LidTable.AllLidsRemove | Topology/fabricdata.c:529-556 | A listed port loses exactly its LIDs and the count follows; a port that is not eligible and not listed changes nothing. |
| LidTable.LidTable.PartialLidsRemove | Topology/fabricdata.c:558-566 | Gives up the first LIDs of a range and counts them down. |
| LidTable.LidTable.ClaimRange | Topology/fabricdata.c:589-612 | The loop over a range: a contested range is refused with the table as before, or with force its holders are removed whole; whole ranges and the count are kept. |
| LidTable.LidTable.AllLidsAdd | Topology/fabricdata.c:570-630 | Adding a port keeps whole ranges and a true count; the status and the new table are exactly as the overlap, the state and force decide. |
| LidTable.LidTable.PortDataStateChanged | Topology/fabricdata.c:719-734 | An eligible port gets its whole range and exactly the overlapping ports lose theirs; any other port loses exactly its own. |
| LidPorts.NodeDataAddPort | Topology/fabricdata.c:1009-1078 | A port is added exactly if its number is free and no LID it asks for is taken; otherwise ports, table and count are as before. |
| LidPorts.AsksIff | Topology/fabricdata.c:1034-1042 | An adapter's port goes by its local number and asks for LIDs when up or dormant; of a switch only port 0 asks, unless it is down. |
| LidSearch.FindLidInMap | Topology/search.c:90-129 | The tree search with the range comparison finds the holder of every LID, none if there is none. |
| LidSearch.FindLidInArray | Topology/search.c:117-121 | The two-level lookup finds the same. |
| LidSearch.Elsewhere | Topology/search.c:90-103 | The range comparison points to the side the holder is on. |
| FabricLinks.AddKeeps | Topology/fabricdata.c:1179-1254 | Linking two different ports keeps neighbours mutual, one from port a link (the lower one) and all five counters true. |
| FabricLinks.AddSpoilsIffSelf | Topology/fabricdata.c:1179-1254 | The only way to spoil that by adding is to link a free port to itself. |
| FabricLinks.RemoveKeeps | Topology/fabricdata.c:1280-1322 | Unlinking keeps it too, and succeeds for every linked port. |
| FabricLinks.RemoveUndoesAdd | Topology/fabricdata.c:1179-1322 | A link may be given from either end and removing it from either end restores everything but the two rates, which become 0. |
| FabricLinks.TwoKindsOfLink | Topology/fabricdata.c:310-329 | If every node is an adapter or a switch, adapter links and inter-switch links add up to all links. |
| FabricLinks.RunsKeepLinks | Topology/fabricdata.c:1179-1322 | After any run of adds on distinct ports and removes: neighbours are a partial involution without fixed points, each link is reported from its lower port only, and all five counters are true. |
| FabricLinks.InternalIff | Topology/fabricdata.c:296-309 | A link is internal exactly within one node, or within one system whose GUID is not 0. |
| FabricLinks.OneOfEachKind | Topology/fabricdata.c:1241-1250 | What one link adds to each of the five counters, by the kinds of its nodes and by whether it leaves the system. |
| FabricData.Fabric.CountLink | Topology/fabricdata.c:1241-1250 | The five counters change as the kind of the link says. |
| FabricData.Fabric.FabricDataAddLink | Topology/fabricdata.c:1179-1254 | On the objects, adding a link has the specified effect and status. |
| FabricData.Fabric.FabricDataRemoveLink | Topology/fabricdata.c:1280-1322 | On the objects, removing a link has the specified effect and status. |
| FabricData.Fabric.LinkXmlParserEnd | Topology/snapshot.c:890-962 | The end of a link element of a snapshot links the two ports, or changes nothing if one is missing or linked. |
| FabricData.Fabric.WriteLinks | Topology/snapshot.c:1110-1122 | Each link is written once, from its from port, in port list order. |
| FabricData.Fabric.ReadLinks | Topology/snapshot.c:890-962 | Reading link after link has the effect of reading them one by one. |
| Snapshot.RoundTrip | Topology/snapshot.c:890-1122 | Reading back what was written, over the same unlinked ports, rebuilds neighbours, from ports and counters exactly. |
| Snapshot.ReadKeepsIff | Topology/snapshot.c:890-962 | Reading any link keeps neighbours mutual, on existing ports, and counters true, exactly unless it links a free port to itself. |
| QosMaps.QOSData.QOSDataLookupSCSCMap | Topology/fabricdata.c:632-649 | Finds the table of the first entry with the port. |
| QosMaps.QOSData.NumPortsSet | IbAccess/Common/Inc/stl_helper.h:2233-2246 | The count is 0 exactly when the mask shows no port up to the number. |
| QosMaps.QOSData.QOSDataAddSCSCMap | Topology/fabricdata.c:654-713 | The pass, which counts ports up to the port count modulo 256, and what follows it leave the entries the specification says. |
| QosMaps.LookupIffMaps | Topology/fabricdata.c:632-649 | With disjoint masks and distinct tables the list is a map and lookup reads it. |
| QosMaps.AddUpdates | Topology/fabricdata.c:654-713 | Unless a vacated entry still has ports above the last counted, adding keeps masks non-empty and disjoint and tables distinct, and updates the port and no other. |
| QosMaps.AddUpdatesIff | Topology/fabricdata.c:654-713 | Adding is an update of the map exactly under that condition. |
| QosMaps.OverlookedIffNeglected | Topology/fabricdata.c:671-680 | What makes an add go wrong can be read off the map: the port gives up a table that other ports still have, but none that is counted. |
| QosMaps.PlainIffNothingNeglected | Topology/fabricdata.c:632-713 | Over any run of adds the list is the plain map, in which the last add wins, after every step exactly when no step does that; the port count is cut to 8 bits where ports are counted. |
| QosMaps.CountedNotNeglected | Topology/fabricdata.c:671-680 | Adds of ports up to the port count modulo 256 never do that. |
| QosMaps.LastGivenWins | Topology/fabricdata.c:632-713 | Over such runs masks stay non-empty and disjoint, tables distinct, and lookup agrees with the plain map. |
| QosMaps.CutCountLosesPort | Topology/fabricdata.c:671-695 | Concrete adds of ports 200 and 201 of a switch with 300 ports after which 201 has the wrong table. |
| QosMaps.PortBeyondRangeFollows | Topology/fabricdata.c:671-695 | Of two ports past the last counted that share a table, giving one another gives it to both. |
| XmlState.ParserState.RawStart | Xml/ixml.c:1363-1421 | The start of an element, known, unknown, skipped or misplaced, updates the parser as specified. |
| XmlState.ParserState.CheckSubfields | Xml/ixml.c:1260-1312 | A mandatory subfield among the first 64 is missing exactly when it was not found. |
| XmlState.ParserState.EndTag | Xml/ixml.c:1314-1361 | The end of the current element calls its end processing exactly when it succeeded or has an object to end. |
| XmlState.ParserState.RawEnd | Xml/ixml.c:1423-1437 | The end of an element, skipped or not, updates the parser as specified. |
| XmlState.ParserState.Destroy | Xml/ixml.c:1590-1616 | Unwinding empties the stack and leaves every started element ended. |
| XmlParser.StartKeepsIff | Xml/ixml.c:1363-1421 | A start keeps stack, depth and log in step exactly unless it starts a child of an element without subfields and without text. |
| XmlParser.ChildOfLeafEndsEarly | Xml/ixml.c:1386-1437 | A concrete table and document in which a child of a leaf ends the leaf, the leaf ends its container, and the container's end tag finds no element open and an empty stack. |
| XmlParser.EndKeeps | Xml/ixml.c:1423-1437 | An end always does. |
| XmlParser.EveryStartIsEnded | Xml/ixml.c:783-1616 | However a run of accepted events is cut off, after unwinding every start function that returned an object has had exactly one end, last started first, with the parent it was started with. |
| XmlDocument.ElementsAfterTextFail | Xml/ixml.c:1370-1384 | Child elements after text are a failure. |
| XmlDocument.ParsesTo | Xml/ixml.c:1226-1437 | Parsed without failure, a document makes exactly the calls read off its tree, unknown subtrees none, and leaves stack and depth as they were. |
| XmlWellMade.WellMadeIff | Xml/ixml.c:1260-1437 | Read off the document: outside skipped elements it is parsed without failure exactly when no known element has both text and children or children without having subfields, and every known element has a child for each mandatory subfield among the first 64, where a child is for the first subfield with its tag or the tag *. |
| XmlWellMade.FullBoxParses | Xml/ixml.c:1275-1299 | A concrete container with its mandatory element: parsed without failure, both ended as valid. |
| XmlWellMade.BareBoxFails | Xml/ixml.c:1275-1299 | The same container without it: a failure, and the container is ended as invalid. |
| XmlWellMade.StartErrorFails | Xml/ixml.c:1248-1257 | An error reported by a start function is a failure and changes nothing else. |
| XmlWellMade.EndErrorFails | Xml/ixml.c:1340-1353 | So is one reported at an element's end; after a failure just the elements with an object are still ended. |
| BlockReader.Reader.LoadBlock | Xml/config_compression.c:359-399 | Reads one block, the tail, or finds that the file ends badly; what is pending is the block and then the rest. |
| BlockReader.Reader.Deliver | Xml/config_compression.c:337-414 | Bytes go to the buffer as far as they fit and the rest is left over, in order. |
| BlockReader.Reader.ReadUncompressedBytes | Xml/config_compression.c:333-422 | For any buffer size the result is the next piece of the content, short only at its end; -1 exactly when the content ends early without a tail. |
| BlockReader.ReadFile | Xml/ixml.c:1553-1588 | Reading until nothing comes gives the whole content exactly when the file ends with a tail. |
| BlockReader.ContentByBlock | Xml/config_compression.c:359-399 | What a block gives by its sizes: stored bytes if it is no smaller compressed, inflated ones if it is, nothing more if a size is out of range, bytes are missing or it cannot be inflated. |
| Points.ComparePortPoint | Topology/point.c:811-870 | Accepts the ports the selection accepts; all ports if the point is not valid. |
| Points.CompareNodePoint | Topology/point.c:876-950 | The same for nodes. |
| Points.CompareSystemPoint | Topology/point.c:999-1058 | The same for systems. |
| Points.PointFabricCompress | Topology/point.c:1161-1245 | Compresses as specified. |
| Points.CompressKeepsIff | Topology/point.c:1161-1245 | Compressing changes no comparison exactly when the selection repeats nothing or is not collapsed. |
| Points.CollapsesIff | Topology/point.c:1161-1245 | A list without repeats is collapsed exactly when it is one port or node, or all ports of a node, or all nodes of a system. |
| Points.PairsAreBothLists | Topology/point.c:811-1058 | For ports, nodes and systems a selection of node pairs accepts what the two lists joined accept. |
| Points.ComparisonsAgree | Topology/point.c:811-1058 | The comparisons for ports, nodes and systems agree with each other for every selection. |
| PortIterator.FIPortIterator.Head | Topology/focus.c:1307-1461 | Gives the first adapter port and leaves the others to come, or none if there is none. |
| PortIterator.FIPortIterator.Next | Topology/focus.c:1480-1661 | Gives the next adapter port, and none once all have been given. |
| PortIterator.IteratesAccepted | Topology/focus.c:1307-1661 | Iterating gives each adapter port the selection accepts and nothing else, each once if the selection repeats nothing. |
| IteratorOrder.NodesInOrder | Topology/focus.c:1307-1661 | Adapters come in the order of the list, and the ports of one in ascending order of their numbers. |
| IteratorOrder.ListInOrder | Topology/focus.c:1307-1661 | The adapter ports of a port list come in its order. |
| PortIterator.CompressKeepsIterated | Topology/point.c:1161-1245 | Compressing a selection that repeats nothing keeps the adapter ports it gives. |
| PortIterator.IterateAll | Topology/focus.c:1307-1661 | Head and Next together give the whole sequence and stop. |

## Left out

- SNMP sessions, record filling, expat itself, file access, XML text formatting, progress and error messages.
- Memory exhaustion everywhere, and with it FERROR of the multicast walk and FINSUFFICIENT_MEMORY.
- PortName.ParsePortName: names with more than eight segments through repeated separators, and digit runs beyond the
  range of int, are outside C's defined behaviour and excluded by a precondition.
- PortUnique.WholeNumbersIffFits: assumes that no two names have one key; a collision of 64-bit hashes makes two names one.
- McCuts.VerdictIsTree: goes one way; where a cut hides something the verdict can be right by chance
  (`McValidation.HiddenYetRight`). For groups that are forwarded as trees McCuts.TreePassesIff is exact. Forwarding as it is covers ports below 256, as the tables do.
- McRoute.McWalker.Walk: when something is recorded, only the truth of the records and the restored path are stated, not
  the number of paths or the status of the last exit.
- LinkParser.LinkTable.ResolvePorts: requires a symmetric neighbour relation without fixed points, which the link
  operations keep (see FabricLinks).
- PortRun.NumberAll: starts from the names; reading and filtering the lines of the file is not modelled.
- TopologyTable.TakePort: requires port numbers below 32768; what happens to larger ones is stated by TopologyNodes.
- TopologyTable.ValidateLinkPort: requires port numbers below 32768.
- TopologyTable.ResolveLinks: requires port numbers below 32768.
- TopologyValidation.TopologyValidate: requires cleared marks and links and port numbers below 32768; the counters that
  are only printed are not modelled.
- LidTable.LidTable.AllLidsAdd: requires aligned non-zero LIDs, without which the count is wrong, and fixed LIDs; the
  branch for the ordered map, which its own comment says does not check overlaps, is not modelled.
- LidTable.LidTable.AllLidsRemove: requires that an eligible port is listed, as its comment says it should be.
- LidTable.LidTable.PortDataStateChanged: requires aligned non-zero LIDs of eligible ports.
- LidPorts.NodeDataAddPort: requires aligned non-zero LIDs of ports that ask for them.
- XmlState.ParserState.RawStart: the stack of 100 entries is unbounded here, and start functions do not replace the
  subfields or the field of their own element.
- PortIterator.FIPortIterator.Next: may only be asked after Head gave a port; the flags are not set before that.
- PortDataSetPortInfo, PortDataFree, copying points, the writer of compressed files, and the searches that build points.
- IOC and IOU points, expected-object points, and the node pair lists of the iterator, which gives nothing for them.
- Rate warnings, MTU, cable data and link details, which only serve reports.
- Credit loops, unicast routes, virtual fabrics and the command line tools.
