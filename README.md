# CVC circuit-validity checker: a Dafny model of its core

CVC (Circuit Validity Checker) reads a transistor-level netlist together with a
power file and a model file, propagates supply voltages through the devices, and
reports devices that may break down, leak or float. After a run, a Python tool
gathers the reported errors into a summary file and lets a designer review them:
it sorts the errors, marks each as checked or ignored with a reference, keeps an
undo and redo history, and saves the reviewed summary and a CSV export.

This project models, in Dafny, the parts of that system whose behaviour can be
stated without running a circuit:

- the C++ data structures: bit sets, the event queue with its virtual-net
  updates, virtual nets and their resistance walks, the net equivalence built
  from shorts, power definitions and their alias resolution, models with their
  parameter conditions, parameter maps, circuits with their instance and device
  counts, connection summaries, inverter-chain compression and equations turned
  to postfix form;
- the text utilities of the C++ side: cell-name removal, the fuzzy filter,
  the bus expansion of a net name, and the model-file line forms;
- the Python review tool: the error taxonomy and section numbering, the
  ordering of error records, reading the summary file, scanning the log and
  error report of a run, extracting error details, reconciling a new run with an
  old summary, the per-section tallies, the review edits with undo and redo,
  saving in several output modes and the CSV export, and the review widget that
  holds all of it;
- the cell-expansion script's matching heuristics.

Each module follows one source file or one closely related group of them. Pure
Python and C++ helpers become functions with lemmas about them; classes whose
methods update fields become Dafny classes with `modifies` frames, proved
against specification functions on their fields. Helper modules (`Text`,
`Paths`, `Scan`, `CppString`) give the standard-library behaviour the source
relies on: Python string order and splitting, `os.path` name handling, and
`std::string` searching and substrings with `size_t` arithmetic, including the
wrap of `npos + 1` to 0.

## Model

| member | source | states |
|---|---|---|
| Sets.Intersects | CSet.cc:26-39 | true exactly when the two sets share a member, in either order of asking; an empty set meets nothing |
| CvcUtil.AddResistance | src/utility.h:63-64 | the sum of base and increment, capped at MAX_RESISTANCE, never wrapping |
| CvcUtil.Trim | src/utility.h:45 | fails with out_of_range exactly when the text is all blanks, tabs and newlines (the empty text included), as the second substr then starts at npos; otherwise the result is non-empty and neither starts nor ends with one of them |
| CvcUtil.TrimPadded | src/utility.h:45 | trimming a word padded with blanks on either side gives the word back |
| Devices.CreatePortKey | src/CDevice.cc:109-117 | "" for more than ten signals, else the master name followed by one space and the hexadecimal global net id per port |
| Devices.PortKeyReadsBack | src/CDevice.cc:109-117 | split at spaces, a key gives back the master name and each port's global net id |
| Devices.SameNetsSameKey | src/CDevice.cc:109-117 | instances of one master on the same global nets get the same key |
| Devices.SameKeySameNets | src/CDevice.cc:109-117 | equal keys mean the same master and the same global net port by port |
| Models.TypeNamed | CvcMaps.cc:44-57 | the model type a type token names; "M" names MOSFET and "BOX" names BOX, and no token names UNKNOWN |
| Models.BasePrefix | CvcMaps.cc:76-91 | the netlist prefix of a type: "M" exactly for the MOS types, "" exactly for switches and fuses |
| Models.Initial | src/CModel.cc:43-54 | a model before its parameters has the named type, that type's base prefix, the name, and no conditions, cell filter or diodes |
| Models.HeaderOf | src/CModel.cc:41-53 | a line without a type or name token fails with out_of_range, as substr(npos) does |
| Models.ItemAt | src/CModel.cc:58-63 | the next token starts after the current one, or there is none (npos) |
| Models.Override | src/CModel.cc:76-80 | model= fails with EModelError unless the base type may be overridden by that value; otherwise only the type changes, to the one the value names |
| Models.OverrideKinds | src/CModel.cc:77-79 | a successful override turns a MOSFET only into a fuse, and anything but a subcircuit only into a switch or fuse |
| Models.WithParameter | src/CModel.cc:64-87 | an unknown parameter name fails with EModelError; Vth and R set their definitions; only model= changes the type; the name, base type and definition stay |
| Models.DefaultDiodes | src/CModel.cc:90-100 | with no diode= list, NMOS get (4,1),(4,3), PMOS (1,4),(3,4), a diode (1,2), anything else none; a written list is kept |
| Models.NewModel | src/CModel.cc:33-101 | the model the line parses to: header, each parameter in turn, then the default diodes |
| Models.ReadItem | src/CModel.cc:58-63 | one parameter token split at its '=' as the constructor's loop does |
| Models.SetParameter | src/CModel.cc:64-87 | the constructor's dispatch on the parameter name |
| Models.ConditionAt | src/CModel.cc:133-138 | one condition's name, relation and value; out_of_range when a part is missing; the name is upper-cased |
| Models.Routed | src/CModel.cc:139-144 | a CELL= condition sets the cell filter; any other is appended to the conditions |
| Models.Trimmed | src/utility.h:45 | trim_ throws (None) exactly on a text of blanks only; otherwise its result is non-empty and starts and ends with a non-blank |
| Models.NormalValueFailure | CNormalValue.cc:26-49 | converting a value throws out_of_range exactly when the text is blank, and otherwise at most EFatalError (an unknown unit suffix) |
| Models.SuffixConverts | CNormalValue.cc:34-43 | "0.4u" converts |
| Models.UnknownSuffixFails | CNormalValue.cc:44-46 | "1x" throws EFatalError |
| Models.BlankValueFails | CNormalValue.cc:27 | a blank value throws out_of_range from trim_ |
| Models.ConditionFailure | src/CCondition.cc:26-31 | a CELL= filter never throws; any other condition throws out_of_range exactly when its value is blank, and otherwise at most EFatalError |
| Models.ConditionsFrom | src/CModel.cc:132-147 | the loop changes only the conditions and the cell filter; it fails with out_of_range for a missing part or a blank value, and with EFatalError when a value other than a CELL= filter's has an unknown unit suffix |
| Models.WithConditions | src/CModel.cc:121-148 | CreateConditions changes only the conditions and the cell filter, and fails only with out_of_range or EFatalError |
| Models.ConditionsAppend | src/CModel.cc:132-147 | the loop only appends, each added condition upper-cased and not a CELL= filter |
| Models.WithConditionsAppend | src/CModel.cc:121-148 | the conditions CreateConditions adds follow the ones already there |
| Models.ConditionsStep | src/CModel.cc:133-146 | one pass routes the condition read and moves past the separators to the next one |
| Models.ReadCondition | src/CModel.cc:133-137 | the condition between two positions as the loop body reads it |
| Models.CreateConditions | src/CModel.cc:121-148 | the model CreateConditions leaves, as WithConditions gives it, including the failure of a condition value that does not convert |
| Models.DiodesFrom | src/CModel.cc:162-169 | the loop changes only the diode list |
| Models.WithDiodes | src/CModel.cc:150-170 | SetDiodes changes only the diode list |
| Models.ReadDiode | src/CModel.cc:163-166 | one anode-cathode pair as the loop body reads it |
| Models.DiodesStep | src/CModel.cc:163-168 | one pass appends the pair read and moves past the separators to the next one |
| Models.SetDiodes | src/CModel.cc:150-170 | the model SetDiodes leaves, as WithDiodes gives it |
| Models.ConditionsHold | src/CModel.cc:106-114 | checking the conditions fails only with EFatalError (a missing parameter, or a parameter value that does not convert) |
| Models.ConditionsHoldTrue | src/CModel.cc:106-114 | true exactly when every condition names a present parameter whose value converts and passes its check |
| Models.ConditionsHoldFail | src/CModel.cc:106-114 | EFatalError exactly when some condition's parameter is missing or its value does not convert, and every condition before it passes |
| Models.Matched | src/CModel.cc:103-119 | a match exactly when the conditions hold and, if a cell filter is set, the cell name matches it; it throws exactly when the conditions throw |
| Models.ParameterMatch | src/CModel.cc:103-119 | the answer Matched gives |
| Models.FirstMatchUnique | src/CModel.cc:306-328 | the scan's result is determined: at most one result is the first match |
| Models.Stop | src/CModel.cc:306-328 | where the scan stopped: at the first model that matches or throws, or at the end with no result |
| Models.FirstMatch | src/CModel.cc:306-328 | the first model that matches, stopping at the first exception |
| Models.LookupKey | src/CModel.cc:298-299 | the key is a prefix of the trimmed parameter text |
| Models.ModelListMap.constructor | src/CModel.cc:259-268 | an empty map without errors |
| Models.ModelListMap.AddModel | src/CModel.cc:270-295 | a line that does not parse (including a condition value with an unknown unit suffix) sets hasError and adds nothing; otherwise the model is appended under "baseType name", and a new list takes the model's Vth |
| Models.ModelListMap.FindModel | src/CModel.cc:297-333 | out_of_range for a blank text; no model for an unknown key; otherwise the first model under the key whose conditions the text's parameters meet |
| ModelLines.HeaderOfLine | src/CModel.cc:41-54 | a line "type name ..." reads as the model the type token names, with the name token as its name |
| ModelLines.ParseTypeAndName | src/CModel.cc:33-101 | the line "type name" parses to that type and name, with the type's default diodes |
| ModelLines.WrittenAt | src/CModel.cc:164-166 | the i-th diode of a written list has the i-th pair's anode and cathode numbers |
| ModelLines.DiodesFromPairs | src/CModel.cc:162-169 | the loop over written pairs appends their diodes in written order |
| ModelLines.WithDiodesAt | src/CModel.cc:150-170 | SetDiodes over pairs written from position 1 replaces the list with those diodes |
| ModelLines.WithDiodesWritten | src/CModel.cc:150-170 | SetDiodes on "(a-c,...,a-c)" gives exactly the written pairs, in order, as the diode list |
| ModelLines.RoutedAllMeaning | src/CModel.cc:138-144 | routing written conditions appends every non-CELL= one, upper-cased and in order, and leaves the last CELL= value as the cell filter |
| ModelLines.ConditionsFromAt | src/CModel.cc:132-147 | the loop over written conditions whose values convert routes them all, in order |
| ModelLines.WithConditionsAt | src/CModel.cc:121-148 | CreateConditions over conditions written from position 1, whose values convert, routes them all, in order |
| ModelLines.WithConditionsWritten | src/CModel.cc:121-148 | CreateConditions on "(name<rel>value ...)", whose values convert, appends each written condition but CELL=, with its name upper-cased, its relation and its value, and sets the cell filter to the last CELL= value |
| ParameterMaps.UpperChar | src/Cvc.hh:201 | toupper in the C locale: 'a' to 'z' move up by 32, every other character stays |
| ParameterMaps.ToUpper | src/Cvc.hh:201 | the name upper-cased, its length kept |
| ParameterMaps.ToUpperIdempotent | src/Cvc.hh:201 | upper-casing twice is upper-casing once |
| ParameterMaps.Key | src/CParameterMap.cc:37-43 | the map key of a name: a leading '$' dropped, then upper-cased |
| ParameterMaps.FindChar | src/CParameterMap.cc:34-35 | the position of the next given character at or after the start, or npos |
| ParameterMaps.FindCharFirst | src/CParameterMap.cc:34-35 | no earlier occurrence lies between the start and the position found |
| ParameterMaps.FindCharIsFind | src/CParameterMap.cc:34-35 | the search is std::string::find with a one-character pattern |
| ParameterMaps.StepAt | src/CParameterMap.cc:34-46 | one pass: its token ends at the next space or at npos |
| ParameterMaps.Entries | src/CParameterMap.cc:32-47 | the do-while loop stores at least one entry, even for a text without '=' |
| ParameterMaps.EntriesWritten | src/CParameterMap.cc:32-47 | the loop reads space-separated NAME=value tokens back as their keys and values, in order |
| ParameterMaps.EnteredWritten | src/CParameterMap.cc:26-49 | CreateParameterMap on written assignments stores each key with its value, in written order |
| ParameterMaps.EnteredNothing | src/CParameterMap.cc:32 | an empty text leaves the map unchanged |
| ParameterMaps.LastEntryWins | src/CParameterMap.cc:45 | of several entries with one key, the last one stays in the map |
| ParameterMaps.LastAssignmentWins | src/CParameterMap.cc:26-49 | a later assignment to the same upper-cased name overwrites an earlier one |
| ParameterMaps.TrailingSpace | src/CParameterMap.cc:34-47 | a trailing space makes one more, empty token, which stores the empty name with the whole text as its value |
| ParameterMaps.ParameterMap.constructor | src/CParameterMap.cc:26 | an empty parameter map |
| ParameterMaps.ParameterMap.CreateParameterMap | src/CParameterMap.cc:26-49 | the map after reading each space-separated token of the text into it, as Entered gives it |
| Equations.RunLength | src/utility.cc:124 | the length of the delimiter-free run at the start: nothing in it is a delimiter, and it stops at one or at the end |
| Equations.TokensConcatenate | src/utility.cc:114-139 | the tokens concatenate back to the equation: tokenizing loses nothing |
| Equations.TokenShapes | src/utility.cc:118-129 | each token is a single delimiter or a non-empty delimiter-free run, and no two runs are adjacent |
| Equations.ParseEquation | src/utility.cc:114-139 | the token list of the equation, as Tokenize gives it |
| Equations.NextToken | src/utility.cc:119-128 | one pass emits the token at the start and moves strictly forward to where the rest's tokens begin |
| Equations.TokenAt | src/utility.cc:119-128 | a delimiter is a token of its own; any other character starts a run up to the next delimiter (find_first_of) |
| Equations.PaddedOperands | src/utility.cc:153-158 | the operands one more token contributes: "0" for a unary minus, the token for an operand, none for an operator |
| Equations.PopOperator | src/utility.cc:162-163 | the top of the stack moves to the end of the output, and no operand is added |
| Equations.PushOperator | src/utility.cc:159 | the operator is pushed on top of the stack; the rest of the stack is unchanged and stays all operators |
| Equations.CloseGroup | src/utility.cc:160-165 | a ')' fails exactly when there is no '(' on the stack, where the scan would call back() on an empty stack (undefined behaviour); otherwise the stack keeps what lies below the nearest '(' and the output gains the operators above it, top first |
| Equations.ClosingStep | src/utility.cc:161-164 | one pop of the ')' loop moves the top operator to the output and keeps the stack a prefix of the original with no '(' popped |
| Equations.CloseDone | src/utility.cc:161-165 | the ')' loop stops at the nearest '(', with the operators above it on the output, top first |
| Equations.PopPrecedence | src/utility.cc:168-177 | a low-precedence operator pops only from the top of the stack and adds no operand |
| Equations.PostfixStep | src/utility.cc:152-183 | one token of the scan adds exactly its operands to the output ("0" before a unary minus), keeps the stack all operators, and fails only on a ')' |
| Equations.ScanTokens | src/utility.cc:152-184 | the output of the token loop holds the operands of the equation in order, with "0" before each unary minus |
| Equations.FlushOperators | src/utility.cc:185-188 | the operators left on the stack go to the output top first |
| Equations.PostfixOf | src/utility.cc:150-197 | the postfix list holds the operands in order, a "0" before each unary minus; the only failure is an unmatched ')' |
| Equations.Postfix | src/utility.cc:141-198 | postfix of an equation keeps its operands in order, a "0" before each unary minus; it fails only when the equation has a ')' |
| TextUtility.StripPlain | src/utility.cc:94-95 | a stretch free of '(' is copied as it is |
| TextUtility.StripGroup | src/utility.cc:97-99 | inside a group, everything up to and including the first ')' is dropped |
| TextUtility.StripUnclosed | src/utility.cc:96-100 | a group that is never closed takes everything after it |
| TextUtility.StripLeavesNoOpen | src/utility.cc:91-103 | no '(' survives the removal |
| TextUtility.NoGroupUnchanged | src/utility.cc:94-95 | a path without '(' comes back unchanged |
| TextUtility.GroupRemoved | src/utility.cc:91-103 | "a(g)b" loses exactly the group "(g)" and keeps a, then b with its own groups removed |
| TextUtility.CopyGroup | src/utility.cc:96-100 | one pass at a '(': an unclosed group ends the copy with the intended result; a closed one copies the piece up to the next '(' and moves forward to it |
| TextUtility.RemoveCellNames | src/utility.cc:91-103 | the path with every "(cell)" group deleted and the rest kept in order (the intended behaviour; see Findings) |
| TextUtility.AppendedAgrees | src/utility.cc:95-100 | from a '(' of a path whose every '(' is closed, the loop as written appends exactly the text outside the remaining groups |
| TextUtility.AsWrittenAgreesWhenClosed | src/utility.cc:91-103 | when every '(' is closed, the loop as written deletes exactly the groups |
| TextUtility.UnclosedGroupRepeatsPath | src/utility.cc:96-99 | as written, "a(b" becomes "aa(b", because npos + 1 wraps to 0; the intended result is "a" |
| TextUtility.GlobPiece | src/utility.cc:227-236 | each filter character becomes a non-empty piece of the glob form |
| TextUtility.GlobAt | src/utility.cc:226-238 | one step of the in-place rewrite: the k-th filter character becomes its piece, and the index moves past it; `widened` records a '*' turned into ".*" |
| TextUtility.GlobLast | src/utility.cc:226-238 | the glob form ends in '.' exactly when the filter ends in '.' or '?' |
| TextUtility.FuzzyFilter | src/utility.cc:223-248 | the glob form alone when the filter is not a valid expression or a '*' was widened; otherwise the glob form and the filter, each in parentheses, joined by a vertical bar |
| TextUtility.GlobIsGlobbed | src/utility.cc:226-238 | every glob form is already globbed: no '?' and every '*' follows a '.' |
| TextUtility.GlobbedFixed | src/utility.cc:226-238 | globbing a globbed text changes nothing |
| TextUtility.GlobIdempotent | src/utility.cc:226-238 | the glob form is idempotent |
| TextUtility.PlainFilter | src/utility.cc:223-248 | a filter without '*' or '?' is its own glob form and is not treated as a glob |
| TextUtility.IsAlphanumeric | src/utility.cc:253-258 | true exactly when every character is a letter or a digit |
| DbUtility.SimKey | src/CCvcDb_utility.cc:857-870 | the key after a resistance increment: a plain sum up to EVENT_CUTOFF; past it, one unit per 256 of the excess; an abort (the assert) when the key reaches MAX_EVENT_TIME; a zero increment keeps the key |
| DbUtility.ScaledBack | src/CCvcDb_utility.cc:862-866 | scaling a key up by 256 and back down keeps the whole 256ths of the increment |
| DbUtility.Least | src/CCvcDb_utility.cc:283-289 | where the walk down equivalentNet_v stops: a net no greater than the start whose link is not smaller |
| DbUtility.LeastOfWalk | src/CCvcDb_utility.cc:283-289 | a net whose link is not smaller is its own root, the root is its own root, and every net on the walk has the same root |
| DbUtility.GetLeastEquivalentNet | src/CCvcDb_utility.cc:283-289 | UNKNOWN_NET for UNKNOWN_NET; otherwise the root where the walk stops |
| DbUtility.GetGreatestEquivalentNet | src/CCvcDb_utility.cc:274-280 | UNKNOWN_NET for UNKNOWN_NET; otherwise the link of the root the same walk stops at, which is no less than that root |
| DbUtility.Pieces | src/CCvcDb_utility.cc:791-797 | the splitting loop yields at least one part when it does not throw |
| DbUtility.Hierarchy | src/CCvcDb_utility.cc:784-799 | a path starting with "/" gets an empty first part |
| DbUtility.PiecesJoin | src/CCvcDb_utility.cc:791-797 | with a one-character delimiter the parts join back to the text and none contains the delimiter |
| DbUtility.HierarchyJoins | src/CCvcDb_utility.cc:784-799 | joining the hierarchy with its delimiter gives back the path (when the path does not start with "/" or "/" is the delimiter) |
| DbUtility.EmptyDelimiterThrows | src/CCvcDb_utility.cc:791-797 | an empty delimiter is found at every position, so the loop runs past the end and the last substr throws out_of_range |
| DbUtility.NextPart | src/CCvcDb_utility.cc:793-795 | one round appends the part before the delimiter and searches again after it |
| DbUtility.SplitHierarchy | src/CCvcDb_utility.cc:784-799 | the list of parts, as Hierarchy gives it |
| DbUtility.NatText | src/CCvcDb_utility.cc:840 | the decimal digits of an index are never empty |
| DbUtility.IntTextInjective | src/CCvcDb_utility.cc:840 | different indices are written differently |
| DbUtility.Opening | src/CCvcDb_utility.cc:819-833 | the opening bracket tried in the order < [ ( {, at a position holding one of them, or none |
| DbUtility.BusOfAngle | src/CCvcDb_utility.cc:819-838 | "base<first:last>tail" splits into base up to '<', the two index texts and the tail from '>' |
| DbUtility.NoBracketNoBus | src/CCvcDb_utility.cc:835-848 | a name without any bracket is no bus |
| DbUtility.BusNamesDiffer | src/CCvcDb_utility.cc:840 | different indices give different names |
| DbUtility.ExpandBusNet | src/CCvcDb_utility.cc:815-852 | a name without a complete bus comes back alone; otherwise one name per index from the first to the last, in that order, each the base, the index and the tail, with no repeats |
| DbUtility.AscendingDistinct | src/CCvcDb_utility.cc:839-842 | names pushed at the back for ascending indices do not repeat |
| DbUtility.DescendingDistinct | src/CCvcDb_utility.cc:839-844 | names pushed at the front for descending indices do not repeat |
| DbUtility.AscendingAt | src/CCvcDb_utility.cc:839-842 | pushing at the back lists the names from the lowest index up |
| DbUtility.DescendingAt | src/CCvcDb_utility.cc:839-844 | pushing at the front lists the names from the highest index down |
| DbUtility.WithinFacts | src/CCvcDb_utility.cc:900-911 | every instance lies within the root, and a strict ancestor has a smaller id and depth |
| DbUtility.WithinTransitive | src/CCvcDb_utility.cc:900-911 | lying within is transitive |
| DbUtility.InstanceDepth | src/CCvcDb_utility.cc:889-898 | the number of parent steps to the root; zero exactly for the root |
| DbUtility.IsSubcircuitOf | src/CCvcDb_utility.cc:900-911 | true exactly when the parent is the root, the instance itself or one of its ancestors |
| DbUtility.TerminalFixed | src/CCvcDb_utility.cc:611-614 | the chain from a terminal net stays there |
| DbUtility.StaysAfter | src/CCvcDb_utility.cc:611-614 | once a chain reaches a terminal net it stays there |
| DbUtility.ChainSet | src/CCvcDb_utility.cc:608-614 | the set collected holds exactly the nets the target's chain reaches |
| DbUtility.PathCrosses | src/CCvcDb_utility.cc:607-622 | true exactly when some net on the search chain (the search net included) lies on the target chain (the target and its terminal included) |
| VirtualNets.AssignedCopies | src/CVirtualNet.cc:48-54 | after an assignment the copy has the other's link, resistance, final net and update time, keeps its own backup, and assigning again changes nothing |
| VirtualNets.Walk | src/CVirtualNet.cc:156-172 | the walk ends at a terminal net of the vector with a resistance no greater than MAX_RESISTANCE, or gives up past the link limit |
| VirtualNets.Hop | src/CVirtualNet.cc:159-163 | following links never leaves the vector |
| VirtualNets.AddCapped | src/CVirtualNet.cc:161 | adding with AddResistance to a capped sum is capping the plain sum |
| VirtualNets.WalkFindsFirstTerminal | src/CVirtualNet.cc:156-172 | the walk stops at the first terminal net of the chain, with the plain sum of the resistances passed and the terminal's, capped at MAX_RESISTANCE |
| VirtualNets.CapSum | src/CVirtualNet.cc:161-172 | capping after each addition is capping once at the end |
| VirtualNets.Relinked | src/CVirtualNet.cc:148-149 | the entry written gets the new link and resistance; the vector keeps its size |
| VirtualNets.RelinkedKeeps | src/CVirtualNet.cc:144-149 | the link Set writes keeps every link inside the vector and never closes a two-net loop |
| VirtualNets.Recached | src/CVirtualNet.cc:181-184 | writing an entry's cached final net leaves its link, so the vector stays well formed and free of two-net loops |
| VirtualNets.VirtualNetVector.Set | src/CVirtualNet.cc:143-186 | when the next net links back, nothing changes; otherwise the entry gets the link and resistance, then the walk's final net and resistance and the update time; an abort when the walk passes the link limit; no two-net loop is ever made |
| VirtualNets.VirtualNetVector.WalkFrom | src/CVirtualNet.cc:156-172 | the walk's result, as Walk gives it |
| VirtualNets.VirtualNetVector.Resolve | src/CVirtualNet.cc:56-99 | UNKNOWN_NET gives the unknown net with infinite resistance; a current cache is copied; a stale one is refreshed by the walk first; an abort when the final resistance reaches MAX_RESISTANCE |
| EventQueues.EmptyIffNoDevices | src/CEventQueue.cc:204-244 | a threaded event list is empty exactly when it holds no device |
| EventQueues.ClearedHoldsNoList | src/CEventQueue.cc:26-28 | over a queue array whose every slot is UNKNOWN_DEVICE the only list that can be threaded is the empty one |
| EventQueues.ListedSlotTaken | src/CEventQueue.cc:204-230 | every device on a threaded list has a slot other than UNKNOWN_DEVICE, which is what push_back and push_front test to refuse a second enqueue |
| EventQueues.PushBack | src/CEventQueue.cc:204-216 | a device already queued is refused with a queue error and nothing changes; otherwise the list holds its old devices followed by the new one, and only the old tail's slot and the new device's slot change |
| EventQueues.PushFront | src/CEventQueue.cc:218-230 | a device already queued is refused with a queue error and nothing changes; otherwise the list holds the new device followed by its old devices, and only the new device's slot changes |
| EventQueues.PopFront | src/CEventQueue.cc:232-244 | an empty list is a queue error; otherwise the first device is returned, the list holds the rest, and the device's slot is freed to UNKNOWN_DEVICE |
| EventQueues.Enqueue | src/CEventQueue.cc:41-60 | indexing a sub-queue creates the key's list when missing; the device joins that list at the front or back, every other key's list is unchanged, and every device stays on at most one list |
| EventQueues.Dequeue | src/CEventQueue.cc:62-80 | taking from a key's list returns its first device and leaves the rest (an emptied key is dropped); an empty list is a queue error with nothing changed |
| EventQueues.Front | src/CEventQueue.cc:140-143 | the first key of an ordered sub-queue is its least key |
| EventQueues.SubQueueTime | src/CEventQueue.cc:140-143 | an empty sub-queue reports MAX_EVENT_TIME, any other its least key |
| EventQueues.EarliestKey | src/CEventQueue.cc:145-152 | the minimum of the two sub-queue times is the least key held by either sub-queue |
| EventQueues.StoredKey | src/CEventQueue.cc:48 | a MAX_QUEUE stores the negated key so that its ordered map pops the largest first; other queues store the key as given |
| EventQueues.StoredKeyInverse | src/CEventQueue.cc:145-152 | negating a stored key gives back the caller's key, which is how QueueTime reports time in the caller's terms |
| EventQueues.LaterIsStoredOrder | src/CEventQueue.cc:162-168 | one key is later than another exactly when its stored key is greater, for every queue type |
| EventQueues.LeakKey | src/CEventQueue.cc:90-96 | the leak key is the smaller power id, a space, then the larger power id, both in decimal |
| EventQueues.LeakKeySymmetric | src/CEventQueue.cc:90-96 | a leak between two powers gets the same key whichever of the two is the source |
| EventQueues.OneListPerDevice | src/CEventQueue.cc:204-230 | because a device's slot is taken while it is queued, no device is on two lists, in the main or the delay sub-queue |
| EventQueues.EventQueue.constructor | src/CEventQueue.cc:26-32 | a new queue has empty sub-queues, no leaks, zero counters and has not started |
| EventQueues.EventQueue.ResetQueue | src/CEventQueue.cc:26-32 | the queue array is replaced by deviceCount free slots, the counters are cleared, the queue has not started, and the virtual nets' update time is zero |
| EventQueues.EventQueue.IsNextMainQueue | src/CEventQueue.cc:34-39 | a simulation queue takes from the main sub-queue whenever it is not empty; other queues take from the main sub-queue only when its first key is not later than the delay sub-queue's, and otherwise from the delay sub-queue whose first key is then strictly earlier |
| EventQueues.EventQueue.QueueTime | src/CEventQueue.cc:145-152 | before the queue starts or when both sub-queues are empty the time is 0; otherwise it is the earliest key held, given back in the caller's sign |
| EventQueues.EventQueue.AddEvent | src/CEventQueue.cc:41-60 | the HiZ and MOS-diode positions push to the front of the main sub-queue, main-back to its back, delay-front and delay-back to the delay sub-queue, with a MAX_QUEUE key negated; the other sub-queue is untouched, a queued device is refused, each event added counts once, and the skip position is a fatal error |
| EventQueues.EventQueue.PushMain | src/CEventQueue.cc:50-52 | the device joins the main sub-queue's list for the key at the front or the back, or is refused when already queued |
| EventQueues.EventQueue.PushDelay | src/CEventQueue.cc:53-54 | the device joins the delay sub-queue's list for the key at the front or the back, or is refused when already queued |
| EventQueues.EventQueue.GetMainEvent | src/CEventQueue.cc:62-70 | the first device of the main sub-queue's earliest list is returned and removed and the dequeue count rises by one; an empty list is a queue error |
| EventQueues.EventQueue.GetDelayEvent | src/CEventQueue.cc:72-80 | the first device of the delay sub-queue's earliest list is returned and removed and the dequeue count rises by one; an empty list is a queue error |
| EventQueues.EventQueue.GetEvent | src/CEventQueue.cc:82-88 | the event comes from the sub-queue IsNextMainQueue chooses, the other sub-queue is untouched, and the device returned is the first of that sub-queue's earliest list |
| EventQueues.EventQueue.AddLeak | src/CEventQueue.cc:90-99 | the device goes to the front of the leak list under the key of its source and drain powers, created when missing |
| Circuits.PortsNumbered | src/CCircuit.cc:36-40 | distinct ports are numbered in order from the current port count, the map gains exactly the ports, and other signals keep their ids |
| Circuits.PortsDense | src/CCircuit.cc:36-40 | the ports of a fresh cell get the ids 0 to n-1, one per port |
| Circuits.Intern | src/CCircuit.cc:42-57 | every signal name of a device gets exactly one id |
| Circuits.InternNextIds | src/CCircuit.cc:46-55 | looking one name up keeps every existing id and adds at most that name, whose id is appended to the device's list |
| Circuits.InternIds | src/CCircuit.cc:42-57 | each device signal's id is the id the map holds for its name, existing ids never change, and only the device's names are added |
| Circuits.InternDense | src/CCircuit.cc:49-53 | a new signal takes the map's size as its id, so ids stay 0 to size-1 and distinct |
| Circuits.InternList | src/CCircuit.cc:49-53 | the internal signal list keeps its old names and is extended by exactly the new names, each with the id it was given |
| Circuits.Circuit.constructor | src/CCircuit.cc:36-40 | a new cell has no signals, devices, instances or error counters and a port count of 0 |
| Circuits.Circuit.AddPortSignalIds | src/CCircuit.cc:36-40 | the signal map is the ports numbered on from the old port count, which grows by the number of ports |
| Circuits.Circuit.SetSignalIds | src/CCircuit.cc:42-57 | the signal map, the internal signal list and the ids returned are what Intern gives for the device's signal names |
| Circuits.Names | src/CCircuit.cc:100-103 | the instance names of a device list, in order |
| Circuits.NameSetLast | src/CCircuit.cc:100-103 | the names seen after one more device are the earlier names plus its name |
| Circuits.DistinctLast | src/CCircuit.cc:100-103 | a list's names are distinct exactly when its prefix's are and the last name is new |
| Circuits.LoadDuplicate | src/CCircuit.cc:98-104 | loading throws EDuplicateInstance exactly when some instance name repeats or was seen before |
| Circuits.PlaceKind | src/CCircuit.cc:105-117 | a subcircuit instance is appended to the instances with the next instance offset, any other device to the devices with the next device offset, and the other list is unchanged |
| Circuits.LoadPlaced | src/CCircuit.cc:97-118 | after a load without duplicates the devices (and the instances) are the old ones followed by the list's devices (instances) in input order, numbered consecutively |
| Circuits.LoadResolved | src/CCircuit.cc:97-100 | every loaded device's signals have ids, and the ids stay dense |
| Circuits.LoadStops | src/CCircuit.cc:102-103 | the load stops at the first duplicate: what follows it changes nothing |
| Circuits.Resized | src/CCircuit.cc:91 | resizing the error counters keeps the first entries and pads with zeroed counters |
| Circuits.Circuit.LoadDevices | src/CCircuit.cc:81-129 | the cell's signals, devices and instances are what loading the list gives; a duplicate instance fails with EDuplicateInstance; on success the internal signal list is moved to the internal signal vector; the error counters get one entry per device |
| Circuits.Totals | src/CCircuit.cc:131-166 | the hierarchy totals fail only with a fatal error (a missing master or a port mismatch) |
| Circuits.TotalsFrom | src/CCircuit.cc:140-163 | counting the remaining instances fails only fatally and never lowers the subcircuit total |
| Circuits.OccurrencesRank | src/CCircuit.cc:131-179 | only cells ranked below a cell are instantiated below it |
| Circuits.NoSubcircuits | src/CCircuit.cc:147-149 | a cell whose subcircuit total is 0 instantiates nothing, which is why CountInstantiations skips it |
| Circuits.OccurrencesStep | src/CCircuit.cc:168-179 | one instance adds one occurrence of its master plus every occurrence below the master |
| Circuits.TotalsStep | src/CCircuit.cc:152-160 | an instance whose master exists and fits adds the master's totals |
| Circuits.InstancesOf | src/CCircuit.cc:140-141 | the instances counting reads are the subcircuit instances' masters and signal counts, in order |
| Circuits.CircuitList.constructor | src/CCircuit.cc:131-166 | before linking no cell is linked and every total and instance count is zero |
| Circuits.CircuitList.CountInstantiations | src/CCircuit.cc:168-179 | every cell's instance count rises by the number of times it occurs in the hierarchy below the cell |
| Circuits.CircuitList.LinkOrCount | src/CCircuit.cc:144-150 | a linked child has its instantiations counted, an unlinked one is linked; either way the child ends linked with its true totals and every cell below it counted once more, or the hierarchy has a fatal error |
| Circuits.CircuitList.CountObjectsAndLinkSubcircuits | src/CCircuit.cc:131-166 | linking a cell fails exactly when its hierarchy totals fail, and otherwise records those totals, marks it linked and counts every instantiation below it, leaving cells ranked at or above it alone |
| Circuits.CircuitList.LinkInstances | src/CCircuit.cc:140-165 | after the loop every instance's master is linked, the cell's running totals equal its hierarchy totals and the instance counts include every occurrence below it; a failure is a fatal error of the hierarchy |
| Circuits.CircuitList.LinkInstance | src/CCircuit.cc:141-164 | one instance: a missing master or a port mismatch is fatal; otherwise the master is linked or counted, its instance count rises by one and its totals are added |
| Circuits.DeviceNames | src/CCircuit.cc:62-64 | the names of a cell's devices in device order |
| Circuits.NameIndexFacts | src/CCircuit.cc:59-68 | the rebuilt name map holds exactly the devices' names, each mapped to a device of that name, and to its own index when names are distinct |
| Circuits.DeviceIdCache.constructor | src/CCircuit.cc:59-68 | the cache starts with no cell and an empty map |
| Circuits.DeviceIdCache.GetLocalDeviceId | src/CCircuit.cc:59-68 | the map is rebuilt only when the cell differs from the last one asked; a known name gives its device index and an unknown one fails with out_of_range |
| CircuitErrors.ErrorLine | src/CCircuit.cc:273-281 | every summary line starts with "INFO: SUBCKT (" |
| CircuitErrors.Reset | src/CCircuit.cc:270-283 | exactly the reported counters (positive, and of a listed model type when the list is not empty) are set to zero; all others are unchanged |
| CircuitErrors.ErrorLinesCount | src/CCircuit.cc:268-285 | a cell gives one summary line per reported device |
| CircuitErrors.ErrorLinesMember | src/CCircuit.cc:268-285 | a line is in a cell's summary exactly when it is the error line of one of its reported devices |
| CircuitErrors.ResetClears | src/CCircuit.cc:282 | after the reset a second pass reports nothing, and resetting again changes nothing |
| CircuitErrors.CollectErrors | src/CCircuit.cc:268-285 | one cell's lines are its reported devices' error lines and its counters are reset |
| CircuitErrors.CollectAll | src/CCircuit.cc:264-286 | the collected lines are every cell's error lines, and every cell's counters are reset |
| CircuitErrors.PrintAndResetCircuitErrors | src/CCircuit.cc:259-297 | the error file gets the heading, the collected lines sorted, then a blank line, "! Finished" and a blank line; every reported counter is reset |
| CircuitErrors.SummaryOrdered | src/CCircuit.cc:287 | the sorted summary is ordered and is a permutation of the collected lines |
| Connections.FilledFromSim | src/CConnection.cc:213-230 | a known sim voltage fills only an unknown min or max; known values and the sim voltage are never overwritten, and a terminal without a sim voltage is unchanged |
| Connections.SettledFacts | src/CConnection.cc:232-263 | after SetUnknownVoltage min and max are both known or both unknown, known values are kept, they are known exactly when any of sim, min or max was, and an equal min and max supply an unknown sim |
| Connections.SettledOneSided | src/CConnection.cc:248-256 | a terminal with only a min (or only a max) voltage gets that voltage as min, max and sim |
| Connections.SettledIdempotent | src/CConnection.cc:232-263 | settling a terminal twice is settling it once |
| Connections.JudgedMeaning | src/CConnection.cc:265-342 | each validity flag in terms of the voltages: sim is valid when known; a leak bound when known and consistent with the other; min (max) when known, not from a HiZ power, not above max (below min), and not outside a valid leak bound |
| Connections.JudgedRejects | src/CConnection.cc:275-301 | an unknown or HiZ min (max) is never valid, and min above max invalidates both |
| Connections.FullConnection.SetUnknownVoltageToSim | src/CConnection.cc:213-230 | each of the four terminals is filled from its sim voltage and nothing else changes |
| Connections.FullConnection.SetUnknownVoltage | src/CConnection.cc:232-263 | each of the four terminals is settled and nothing else changes |
| Connections.FullConnection.SetMinMaxLeakVoltagesAndFlags | src/CConnection.cc:265-342 | each terminal stores its leak range and gets the validity flags judged from its voltages, powers and leak range |
| Connections.FillFromSim | src/CConnection.cc:214-217 | the per-terminal filling steps compute FilledFromSim |
| Connections.Settle | src/CConnection.cc:232-263 | the per-terminal assignments in source order compute Settled |
| Connections.JudgeTerminal | src/CConnection.cc:265-342 | the per-terminal flag assignments in source order compute Judged |
| Connections.MinMaxMeaning | src/CConnection.cc:117-143 | CheckTerminalMinMaxVoltages holds exactly when every selected terminal has known min and max with min not above max and, unless HiZ is allowed, neither from a HiZ power |
| Connections.MinMeaning | src/CConnection.cc:165-179 | CheckTerminalMinVoltages holds exactly when every selected terminal's min voltage is known |
| Connections.MaxMeaning | src/CConnection.cc:181-195 | CheckTerminalMaxVoltages holds exactly when every selected terminal's max voltage is known |
| Connections.SimMeaning | src/CConnection.cc:197-211 | CheckTerminalSimVoltages holds exactly when every selected terminal's sim voltage is known |
| Connections.SettledChecksAgree | src/CConnection.cc:165-195 | once min and max are known together, the min check and the max check agree |
| Connections.PumpMeaning | src/CConnection.cc:506-511 | a pump capacitor is a capacitor whose source or drain has the same min and max power but different min and max voltages |
| Connections.HiZCheckWidens | src/CConnection.cc:117-143 | a connection that passes without allowing HiZ also passes when HiZ is allowed |
| Connections.MinMaxImpliesBoth | src/CConnection.cc:117-195 | passing the min-max check implies passing the min check and the max check |
| Connections.CheckUnion | src/CConnection.cc:117-143 | checking the union of two terminal masks is checking each mask |
| NetEquivalence.MasterPower | src/CCvcDb_init.cc:215-232 | a missing power yields the other net's power with the flag clear; the same power yields no master with the flag set; otherwise the power that is a valid subset of the other is master; powers that are neither throw EEquivalenceError |
| NetEquivalence.PointedAt | src/CCvcDb_init.cc:271-276 | exactly the minor net and the nets listed under it point at the master power; every other net keeps its power |
| NetEquivalence.LeastAfterLink | src/CCvcDb_init.cc:280-290 | pointing the greater root at the lesser root keeps the links acyclic, and every net that led to the greater root now leads to the lesser root while all others keep their least net |
| NetEquivalence.EquivalenceDb.constructor | src/CCvcDb_init.cc:242-292 | each net starts as its own equivalent net, with its own power and no merged lists |
| NetEquivalence.EquivalenceDb.PointAtMaster | src/CCvcDb_init.cc:271-276 | the net powers become PointedAt of the old ones |
| NetEquivalence.EquivalenceDb.Splice | src/CCvcDb_init.cc:278-284 | the lesser net's list becomes the greater net's list, then the greater net, then its own old list, and the greater net's list is emptied when it had one |
| NetEquivalence.EquivalenceDb.Link | src/CCvcDb_init.cc:270-285 | pointing the powers, splicing the lists and linking the greater root to the lesser root give the merged state |
| NetEquivalence.EquivalenceDb.MakeEquivalentNets | src/CCvcDb_init.cc:242-292 | the nets' least equivalents are merged as Shorted describes: nothing happens when they are already equivalent or have the same power definition, an incompatible pair throws EEquivalenceError, and otherwise the greater root joins the lesser root |
| NetEquivalence.RootsLink | src/CCvcDb_init.cc:247-290 | linking the greater of two distinct roots to the lesser keeps every link pointing to a lower net |
| NetEquivalence.ShortJoins | src/CCvcDb_init.cc:242-292 | after the link both nets lead to the lesser root, and every net that led to either root leads there while all others are unchanged |
| NetEquivalence.ShortWithoutLink | src/CCvcDb_init.cc:254-266 | the state is unchanged exactly when the roots are equal, the powers clash (then with the error) or the powers are the same definition |
| NetEquivalence.ThreadsAt | src/CCvcDb_init.cc:733-739 | walking k steps from a net's first device reaches its k-th device, and UNKNOWN_DEVICE after the last |
| NetEquivalence.ThreadsUnique | src/CCvcDb_init.cc:733-739 | the first/next arrays determine a net's device list |
| NetEquivalence.Reversed | src/CCvcDb_init.cc:693-707 | reversing keeps the length |
| NetEquivalence.ReversedReads | src/CCvcDb_init.cc:693-707 | the reversed list holds the same devices in the opposite order |
| NetEquivalence.PushFront | src/CCvcDb_init.cc:699-700 | linking a new device in front of a net's first device gives a list with that device followed by the old list |
| NetEquivalence.ActiveResistorsMeaning | src/CCvcDb_init.cc:676-691 | the filtered list holds exactly the devices that are resistors not marked SIM_INACTIVE |
| NetEquivalence.ActiveResistorsSnoc | src/CCvcDb_init.cc:678-683 | scanning one more device adds it when it is an active resistor |
| NetEquivalence.ActiveResistorsGrow | src/CCvcDb_init.cc:676-691 | scanning further never finds fewer active resistors |
| NetEquivalence.ConnectionList.RecountConnections | src/CCvcDb_init.cc:733-739 | the count is the length of the net's device list |
| NetEquivalence.ConnectionList.MergeConnectionListByTerminals | src/CCvcDb_init.cc:693-707 | the from-net's list is emptied and its devices are prepended to the to-net's list in reverse order; exactly those devices get the to-net as their terminal; other nets' heads and other devices' links are unchanged |
| NetEquivalence.MovedStep | src/CCvcDb_init.cc:696-703 | one loop step moves the next device of the from-list to the front of the to-list |
| NetEquivalence.MovedAll | src/CCvcDb_init.cc:696-706 | when every device has moved, clearing the from-net's head gives the merged lists |
| NetEquivalence.ScanResistors | src/CCvcDb_init.cc:678-689 | scanning one list keeps the single active resistor found so far, or throws EDatabaseError at the second |
| NetEquivalence.FindUniqueSourceDrainConnectedDevice | src/CCvcDb_init.cc:676-691 | over the source list then the drain list: no active resistor gives UNKNOWN_DEVICE, one gives that device, and two or more throw EDatabaseError |
| NetEquivalence.SamePowerSameSCRC | src/CCvcDb_init.cc:1494-1500 | two same-power definitions agree on being SCRC power (HiZ with equal min and max) |
| NetEquivalence.OppositeLogicSymmetric | src/CCvcDb_init.cc:1669-1671 | opposite logic is symmetric, and a net is opposite to its inverter's output |
| Inverters.InverterInput | src/CCvcDb.cc:2762-2773 | a call that completes keeps both vectors' sizes and every input in range, and returns a net of the vector |
| Inverters.InverterSweep | src/CCvcDb.cc:2775-2783 | a sweep that completes keeps both vectors' sizes and every input in range |
| Inverters.InverterNets.SetInverterInput | src/CCvcDb.cc:2762-2773 | the vectors and the returned net are those of InverterInput; a call that runs out of stack changes nothing |
| Inverters.InverterNets.SetInverterHighLow | src/CCvcDb.cc:2775-2783 | the loop over the nets completes exactly when InverterSweep does, and then leaves its vectors |
| Inverters.InverterInputOnlyCompresses | src/CCvcDb.cc:2762-2773 | one call only re-points nets at the returned net; a net without an input never gains one and keeps its polarity; the returned net has no input or is at least maxNet |
| Inverters.InverterInputRanked | src/CCvcDb.cc:2762-2773 | on acyclic chains with enough stack the call completes, returns the end of the chain, and keeps the chains acyclic |
| Inverters.SweepStepFlat | src/CCvcDb.cc:2777-2781 | one step of the sweep points its net straight at a chain end and keeps the nets before it so |
| Inverters.SweepFlattensRanked | src/CCvcDb.cc:2775-2783 | on acyclic chains the sweep completes and every inverter output points at a net that is not an inverter output |
| Inverters.AllNets | src/CCvcDb.cc:2776 | the nets 0 to netCount-1 |
| Inverters.ChainEnd | src/CCvcDb.cc:2762-2773 | the corrected walk ends at a net of the vector |
| Inverters.CompressedInverters | src/CCvcDb.cc:2775-2783 | the corrected compression keeps the sizes, and a net has an input afterwards exactly when it had one before |
| Inverters.ChainEndPolarity | src/CCvcDb.cc:2770 | under logic values every inverter respects, a net equals the end of its chain, inverted exactly when an odd number of inverters lie between them |
| Inverters.CompressedPolarity | src/CCvcDb.cc:2775-2783 | under such logic values every inverter output equals the net it is pointed at, inverted exactly when its highLow entry is set |
| Inverters.ChainEndRanked | src/CCvcDb.cc:2763-2764 | on acyclic chains the corrected walk ends at a net without an input |
| Inverters.CompressedRankedFlat | src/CCvcDb.cc:2775-2783 | on acyclic chains the corrected compression points every inverter output at a net without an input |
| Inverters.SweepLosesPolarity | src/CCvcDb.cc:2775-2783 | for the chain 2 to 1 to 0 to 3, the sweep as written gives highLow true for net 0 and false for net 3, which no consistent logic values allow |
| Inverters.ChainOfThreeCompressed | src/CCvcDb.cc:2775-2783 | the corrected compression of the same chain gives net 0 even and net 3 odd parity with respect to net 2 |
| Inverters.LatchNeverSettles | src/CCvcDb.cc:2762-2783 | for two cross-coupled inverters 0 and 1 read by a third, net 2, the recursion as written never returns, whatever the stack |
| Inverters.LatchCompressed | src/CCvcDb.cc:2775-2783 | the corrected compression of the same latch completes |
| Inverters.SelfLoopNeverReturns | src/CCvcDb.cc:2763-2769 | once the sweep has made net 1 its own input, a call from a larger maxNet recurses on net 1 forever |
| Propagation.CheckConnectionReroute | src/CCvcDb.cc:135-164 | reroute when the next drain net is not terminal; between two terminal powers, reroute exactly when the short's resistance is below the drain's; never when only the drain is power; always when only the source is; otherwise exactly when the drain is calculated and the source is not |
| Propagation.RerouteMirrors | src/CCvcDb.cc:142-152 | rerouting towards the master drain is rerouting towards the master source with source and drain swapped |
| Propagation.RerouteOneWay | src/CCvcDb.cc:153-163 | between two terminal nets that are not both power, the short is never rerouted both ways, and exactly one of them being power makes it rerouted one way |
| Propagation.PriorityByQueue | src/CCvcDb.cc:166-170 | every device has priority in the simulation queue, NMOS devices in the minimum queue and PMOS devices in the maximum queue, and none in both |
| Propagation.OffMosMeaning | src/CCvcDb.cc:612-621 | a device with both voltages known, or in the simulation queue, or not a MOS, is never topologically off; when it is off its gate is tied to its source or drain; with exactly one voltage unknown, swapping source and drain does not change the answer |
| Propagation.OffMosDrainFirst | src/CCvcDb.cc:614-615 | with both voltages unknown the drain is examined first, so an NMOS in the minimum queue with its gate on its source is off while the swapped device is not |
| Propagation.PendingMosMeaning | src/CCvcDb.cc:666-679 | the filtered list holds exactly the listed devices of the MOS kind with the pending bit set |
| Propagation.PendingMosSnoc | src/CCvcDb.cc:669-671 | scanning one more device adds it when it is a pending device of the kind |
| Propagation.PendingMosGrow | src/CCvcDb.cc:666-679 | scanning further never finds fewer pending devices |
| Propagation.CountPending | src/CCvcDb.cc:668-677 | scanning one list stops with false at the second pending device, and otherwise returns the count so far |
| Propagation.LastMosConnection | src/CCvcDb.cc:666-694 | LastNmosConnection (nmos) and LastPmosConnection hold exactly when at most one pending device of the kind is on the net's source and drain lists |
| Propagation.LoneDeviceIsLast | src/CCvcDb.cc:666-694 | a net with a single listed device always has its last connection |
| Propagation.Propagated | src/CCvcDb.cc:1596-1613 | propagation keeps the number of nets |
| Propagation.PropagatedOnlyAdds | src/CCvcDb.cc:1602-1604 | every net's type bits are unchanged or ORed with the new bits |
| Propagation.PropagatedKeepsTerminals | src/CCvcDb.cc:1601 | a terminal net's type bits never change |
| Propagation.PropagatedAlongChain | src/CCvcDb.cc:1601-1606 | only nets reached by following the next-net links from the start change |
| Propagation.PropagatedCoversStart | src/CCvcDb.cc:1601-1605 | a non-terminal start net ends with the new bits set |
| Propagation.PropagatedIdempotent | src/CCvcDb.cc:1603 | propagating the same bits again from the same net changes nothing and reports no error |
| Propagation.ConnectionCounts.PropagateConnectionType | src/CCvcDb.cc:1596-1613 | the type bits and the limit error are those of Propagated |
| Power.CloseMeans | src/CPower.cc:309-318 | when the 32-bit difference does not wrap, abs(a - b) <= threshold is the plain distance test; when it wraps only the two ends of the range can pass |
| Power.UnknownCloseToMinusOne | src/CPower.cc:311-313 | because the subtraction wraps, an unknown voltage passes the subset test against -1 mV for every threshold |
| Power.CPower.constructor | src/CPower.cc:37-40 | a new power for a net has no voltages, types, defaults or extra data |
| Power.CPower.IsSamePower | src/CPower.cc:297-307 | two powers are the same exactly when they agree on type, the three voltages, the three expected values, the family and the permit/prohibit flag |
| Power.CPower.IsValidSubset | src/CPower.cc:309-318 | a valid subset has no type bits, no expected values and no family, and each of its voltages is within the threshold of this power's by 32-bit abs |
| Power.CPower.IsRelative | src/CPower.cc:417-471 | no power to test gives the default; HiZ counts as related when HiZ relatives are allowed; with no relatives on either side the answer is the default |
| Power.SamePowerIsEquivalence | src/CPower.cc:297-307 | being the same power is reflexive, symmetric and transitive |
| Power.SameBareIsSubset | src/CPower.cc:297-318 | a power with nothing of its own that is the same as another is a valid subset of it for any threshold |
| Power.FamilyRules | src/CPower.cc:427-470 | two permit lists relate the powers exactly when either names the other; two prohibit lists exactly when neither does; a prohibit list naming the other side always wins |
| Power.RelativeIsSymmetric | src/CPower.cc:417-471 | whether two powers are related does not depend on which one asks |
| Power.CutAtBus | src/CPower.cc:290-293 | the alias is cut before its first bus opener, and an alias without one is kept whole |
| Power.AliasOf | src/CPower.cc:277-295 | the only failure is substr past the end when the alias marker ends the line; an alias never contains a bus opener |
| Power.ExplicitAlias | src/CPower.cc:280-282 | an explicit alias after the marker, ended by a blank or the line's end, is the alias, cut at the bus |
| Power.TopLevelAlias | src/CPower.cc:283-286 | without a marker, a top-level signal /NAME gives NAME |
| Power.PlainAlias | src/CPower.cc:287-288 | without a marker, a signal with no hierarchy gives itself |
| Power.DeepAlias | src/CPower.cc:283-286 | without a marker, a signal below the top level gives no alias |
| Power.CPower.SetPowerAlias | src/CPower.cc:277-295 | the extra data's alias becomes AliasOf the line and the power signal, and nothing changes on failure |
| Power.Tokens | src/CPower.cc:337-346 | every listed name is non-empty, contains no comma and does not start with a skipped character |
| Power.TokensUnfold | src/CPower.cc:337-346 | one turn of the list loop: skip to the next name, take it up to the next comma, continue from that comma |
| Power.TokensOfJoin | src/CPower.cc:337-346 | scanning a comma-joined list of plain names gives back exactly those names |
| Power.TokensHead | src/CPower.cc:338-343 | a name found after skipped characters and ended by a comma or the end is the first token |
| Power.TokensNone | src/CPower.cc:337-346 | a rest of skipped characters holds no name |
| Power.ParseFamilyLine | src/CPower.cc:320-331 | a parsed line's definition is the line from the list's start, which is a blank |
| Power.FamilyAdded | src/CPower.cc:341-344 | a new family with names maps to exactly those names; one without names is not created |
| Power.PowerFamilyMap.constructor | src/CPower.cc:320-348 | the family map starts empty with an empty definition |
| Power.PowerFamilyMap.AddFamily | src/CPower.cc:320-348 | a malformed line fails; a repeated family leaves the map alone and fails the assertion unless the definitions agree; a new family gets the names its list holds |
| Power.PowerFamilyMap.AddRelative | src/CPower.cc:337-346 | one turn of the loop moves past the next name and adds it to the family, with the names still to come unchanged |
| Power.FamilyLineLists | src/CPower.cc:320-348 | the line "family NAME a,b,c" parses to NAME with exactly the listed relatives |
| Power.ExpansionMeans | src/CPower.cc:1023-1030 | a relative is in a list's expansion exactly when one of the listed names stands for it: a family of the map for its members, any other name for itself |
| Power.ExpansionSnoc | src/CPower.cc:1023-1030 | expanding a list with one more name adds that name's relatives |
| Power.Expanded | src/CPower.cc:1013-1054 | SetFamilies only grows a power's relative set and leaves the rest of its extra data alone |
| Power.ExpandedTwice | src/CPower.cc:1013-1054 | setting the families twice adds nothing more |
| Power.ExplicitFamilyWins | src/CPower.cc:1020-1034 | for an explicit list "A,B" with A a family and B not, the relatives gain A's members and the name B, and the implicit list is not consulted |
| Power.SetFamilies | src/CPower.cc:1013-1054 | every power's extra data becomes Expanded by the family map |
| Power.AddRelatives | src/CPower.cc:1020-1032 | the loop over one family list adds the expansion of its names to the relative set |
| Power.AddRelated | src/CPower.cc:1025-1029 | one name adds its family's members, or itself when it names no family |
| Power.NetVoltage | src/CPower.cc:663-679 | the queue's voltage of the net's power, unknown for UNKNOWN_NET or a net without a power |
| Power.Inherited | src/CPower.cc:880-893 | from the default net's power the new power takes the HiZ bit, the families and relatives, and the permit/prohibit flag, and no voltage changes |
| Power.WithBaseAlias | src/CPower.cc:940-954 | a power with an alias keeps it; otherwise it takes the base power's alias, along the min net when the sim voltage equals the min voltage, else the max net when it equals the max voltage, else the sim net |
| Power.CalculateSets | src/CPower.cc:894-986 | the calculation fails exactly when the queue's voltage is already known; otherwise that voltage and its default net are recorded, the calculated bit is set, the other voltages are kept, an empty definition is filled, and the calculation is DOWN or UP against the default net's voltage |
| Power.CPower.Inherit | src/CPower.cc:880-893 | the power's state becomes Inherited from the default net's power |
| Power.CPower.Settle | src/CPower.cc:894-986 | the power's state and the failure are those of the queue's calculation |
| Power.CPower.RecordMin | src/CPower.cc:894-913 | the minimum branch records the voltage, its default net, the calculated and active bits and the direction |
| Power.CPower.RecordMax | src/CPower.cc:914-933 | the maximum branch records the voltage, its default net, the calculated and active bits and the direction |
| Power.CPower.RecordSim | src/CPower.cc:934-963 | the simulation branch records the voltage, its default net, the calculated bit, the base alias and the direction |
| Power.CalculatePower | src/CPower.cc:859-986 | the net's power, created when missing, ends in the state Calculate gives from its default net's power; no other net's power changes |
| ExpandCells.BlankRun | scripts/expand_cells.py:46 | the leading run of blanks the pattern's \s+ consumes: all blank, and followed by a non-blank or the end |
| ExpandCells.WordRun | scripts/expand_cells.py:46 | the cell name the pattern's \S+ takes: no blank, and followed by a blank or the end |
| ExpandCells.TrailingBlanks | scripts/expand_cells.py:51 | the kept part of a line ends in a non-blank or is empty |
| ExpandCells.StripLine | scripts/expand_cells.py:51 | a stripped line is empty or starts and ends with a non-blank |
| ExpandCells.MatchFirst | scripts/expand_cells.py:46-53 | the first override keyword the line matches, with its cell; none when no keyword matches |
| ExpandCells.MatchKeywordSound | scripts/expand_cells.py:46 | a match means the line is the keyword, blanks, the cell name, then a blank or the end |
| ExpandCells.MatchOverrideKeyword | scripts/expand_cells.py:53-56 | the override a line gives is the first whose keyword pattern matches it, with the same cell |
| ExpandCells.MatchOverrideSound | scripts/expand_cells.py:53-56 | the override and cell taken from a line are a keyword of that line's shape |
| ExpandCells.KeywordsExclusive | scripts/expand_cells.py:46 | no line starts with two different override keywords followed by more text |
| ExpandCells.MatchKeywordComplete | scripts/expand_cells.py:46 | every line of the shape keyword, blanks, cell, rest matches with that cell |
| ExpandCells.MatchOverrideComplete | scripts/expand_cells.py:53-56 | every line of an override's shape gives that override and cell |
| ExpandCells.Kinds | scripts/expand_cells.py:50-67 | each line is classified on its own, in order |
| ExpandCells.ReadCellOverrides | scripts/expand_cells.py:32-69 | the map holds the first setting of every cell; any invalid or conflicting line is an error, all lines are read before failing, and a failure returns no map |
| ExpandCells.ReadKindsMeaning | scripts/expand_cells.py:49-68 | a cell is in the map exactly when some line sets it, with its first setting; a line is an error exactly when it is invalid or conflicts with the cell's first setting |
| ExpandCells.FirstSettingStable | scripts/expand_cells.py:58-64 | a setting once made is never replaced by a later line |
| ExpandCells.ConflictingSettingsFail | scripts/expand_cells.py:58-62 | two lines setting one cell differently make the read fail |
| ExpandCells.InvalidLineFails | scripts/expand_cells.py:65-67 | a non-blank line that is neither an override nor a comment makes the read fail |
| ExpandCells.Names | scripts/expand_cells.py:216-242 | the names of a count dictionary in insertion order |
| ExpandCells.AbsentCount | scripts/expand_cells.py:140-142 | a name not in the dictionary counts 0 |
| ExpandCells.AddCount | scripts/expand_cells.py:140-143 | adding k to one name raises that name's count by k, leaves the others, and raises the total by k |
| ExpandCells.AddCountNames | scripts/expand_cells.py:140-142 | a new name is appended, an existing one keeps its place, and names stay unique |
| ExpandCells.Remove | scripts/expand_cells.py:243 | deleting a name drops its count and only its count |
| ExpandCells.CountResistor | scripts/expand_cells.py:130-135 | every resistor line counts one device; it is a resistor exactly when it matches with distinct terminals, and otherwise an other device |
| ExpandCells.CountMosfet | scripts/expand_cells.py:137-145 | every MOS line counts one device; a match with distinct terminals counts once under its model, anything else as an other device |
| ExpandCells.AddAllCounts | scripts/expand_cells.py:228-238 | merging a child's counts m times adds m times each count and m times the total |
| ExpandCells.AddScaledCounts | scripts/expand_cells.py:222-227 | merging a child's instances scales them by the parent's count of the child, which the merge itself does not change |
| ExpandCells.SmashChildCounts | scripts/expand_cells.py:219-243 | smashing a child removes it from the parent's instances and adds the child's instances, MOS models and devices times the parent's count of the child |
| ExpandCells.SmashFlag | scripts/expand_cells.py:245-274 | a cell is smashed exactly when forced EXPAND, or, when neither forced KEEP nor a parameterized box, its name contains ICV_ or $$, or it has no large instance and at most one MOS model, or one large instance, at most one MOS model and no MOS or resistor |
| ExpandCells.ProgressShrinks | scripts/expand_cells.py:205-278 | a visit never unmarks a checked cell |
| ExpandCells.ProgressChild | scripts/expand_cells.py:216-218 | the recursive visit of a child keeps the visit of the parent's invariant |
| ExpandCells.ProgressDecide | scripts/expand_cells.py:271-278 | marking the cell small and logging its exclusion line, or doing neither, keeps the invariant |
| ExpandCells.Netlist.AddInstances | scripts/expand_cells.py:222-227 | the loop adds the child's instances scaled by the parent's count of the child |
| ExpandCells.Netlist.AddModels | scripts/expand_cells.py:228-232 | the loop adds the child's MOS models scaled by m |
| ExpandCells.Netlist.Smash | scripts/expand_cells.py:219-243 | the parent after smashing the child is SmashChild |
| ExpandCells.Netlist.DecideCell | scripts/expand_cells.py:245-278 | the cell is marked small and its exclusion line recorded exactly when SmashFlag holds for its counts, with instances of small cells not counted |
| ExpandCells.Netlist.PrintSmallCells | scripts/expand_cells.py:205-278 | a missing top cell is a KeyError with nothing changed; otherwise the top cell ends checked, no cell is added or unchecked, small cells stay small, cells checked before (other than the top) are unchanged, and the exclusion lines only grow, each naming a newly decided cell once; top's record ends as SmashedAll gives it, each small child that is not a parameterized box smashed in, in instance order, and it is marked small exactly when SmashFlag holds for the merged counts, in which case its exclusion line, with those counts, is the last printed; otherwise no line names it |
| ExpandCells.Netlist.SmashChildren | scripts/expand_cells.py:218-243 | the loop over top's instance names leaves top as SmashedAll over those names, never prints top, and only visits cells that were unvisited |
| ExpandCells.Netlist.VisitChild | scripts/expand_cells.py:219-243 | one pass: a child with no definition is skipped, an unvisited child is visited first, and a small child that is not a parameterized box is smashed into top, so top is SmashedAll over one more name |
| ExpandCells.Netlist.VisitFirst | scripts/expand_cells.py:222-223 | visiting an unvisited child leaves top and every child already passed as they were, marks the child visited, and prints no line for top |
| ExpandCells.SmashedAllFrame | scripts/expand_cells.py:218-243 | the record the smash loop builds depends only on the records of the names it passes |
| ExpandCells.ProgressTrans | scripts/expand_cells.py:216-243 | two passes of the loop over top's children make one run that prints each cell at most once |
| ExpandCells.DecidedAfterLoop | scripts/expand_cells.py:245-278 | the decision taken on the merged record is the one PrintSmallCells promises for top |
| Taxonomy.ValidLevelsExactly | src_py/cvc_globals.py:31 | the valid check levels are exactly ERROR, Warning, Check and ignore, in that order |
| Taxonomy.TableSize | src_py/cvc_globals.py:33-102 | the error table has 34 entries |
| Taxonomy.SectionsDistinct | src_py/cvc_globals.py:33-102 | no two entries of the error table share a section name |
| Taxonomy.SourceOf | src_py/cvc_globals.py:33-102 | entry i is log-sourced exactly when i is among the first 20, report-sourced otherwise |
| Taxonomy.LogBeforeReport | src_py/cvc_globals.py:33-102 | every log-sourced entry comes before every report-sourced entry, so every log priority is below every report priority |
| Taxonomy.NumberingIdentity | src_py/cvc_globals.py:111-116 | the priorities given to the first k entries are exactly 0..k-1 and entry i gets priority i |
| Taxonomy.PrefixMapSound | src_py/cvc_globals.py:111-116 | after the first k entries, a mapped section maps to an index below k whose entry has that section |
| Taxonomy.PrefixMapComplete | src_py/cvc_globals.py:111-116 | after the first k entries, every section among them is mapped, and to its own index |
| Taxonomy.PriorityMapInverse | src_py/cvc_globals.py:104-116 | the section-to-priority map is defined exactly on the table's sections, and errorList[priorityMap[s]] has section s |
| Taxonomy.Registry.constructor | src_py/cvc_globals.py:32 | the registry starts with empty priority and section maps |
| Taxonomy.Registry.InitializeErrors | src_py/cvc_globals.py:104-116 | the loop leaves each entry's priority equal to its index and the section map equal to the old map overridden by the table's section-to-index map |
| Taxonomy.InitializeTwice | src_py/cvc_globals.py:111-116 | running the initialisation a second time changes neither the priorities nor the section map |
| Ordering.CompareErrors | src_py/utility.py:43-69 | a present record sorts before a missing one; two missing records give "?"; two present ones give "<", ">" or "=" exactly when their (priority, key text) pairs are less, greater or equal |
| Ordering.CompareAsWritten | src_py/utility.py:54-69 | the comparison as written raises KeyError exactly when two present records share a priority and one of them has no 'keyData'; otherwise it orders them as the keyed comparison does |
| Ordering.PriorityDecides | src_py/utility.py:60-63 | two records of different priorities are ordered by priority alone, whatever their key text |
| Ordering.KeyLessFacts | src_py/utility.py:60-67 | the (priority, key text) order is irreflexive, asymmetric and total |
| Ordering.KeyLessTransitive | src_py/utility.py:60-67 | the (priority, key text) order is transitive |
| Ordering.CompareAntisymmetric | src_py/utility.py:43-69 | swapping the two records swaps "<" and ">" and keeps "=" |
| Ordering.CompareTransitive | src_py/utility.py:60-67 | "<" between present records is transitive |
| Ordering.SortByFacts | src_py/SummaryFile.py:139 | sorting on (priority, key text) gives a sorted permutation of its input that keeps records with equal keys in their original order, as Python's stable sort does |
| SummaryFile.Directive | src_py/SummaryFile.py:83-94 | a line is a scope directive exactly when it starts with "#ALWAYS", "#IF " or "#IFNOT "; "#ALWAYS" resets the scope; "#IF " makes the modes after the directive word the active list, and "#IFNOT " makes them the inactive list |
| SummaryFile.DirectivesExclusive | src_py/SummaryFile.py:83-94 | a line starts with at most one of "#ALWAYS", "#IF " and "#IFNOT ", so the order of the tests does not matter |
| SummaryFile.IfScope | src_py/SummaryFile.py:95-98 | under "#IF modes" a line applies exactly to the listed modes, under "#IFNOT modes" exactly to the others, and with no directive to every mode |
| SummaryFile.CommentHead | src_py/SummaryFile.py:102-109 | a line starting with "#" contributes its first word and a blank to the reference; any other line nothing |
| SummaryFile.Fields | src_py/SummaryFile.py:102-108 | the ':'-separated fields of the line without its comment word, which join back to that text |
| SummaryFile.ParseLine | src_py/SummaryFile.py:99-138 | IndexError exactly when the first field starts with "[" and no section word follows the first ':'; the line is dropped exactly when its first field does not start with "[", its level is not valid, or its section is unknown; otherwise the record's reference is the comment word plus the first field, its level the last word of that reference, its priority the section's table index, its data the stripped text after the first ':', and its key text the count-compressed data |
| SummaryFile.SummaryErrorUnmapped | src_py/SummaryFile.py:115-121 | the "summary_error" section given to unknown lines is not in the priority map, so those lines are always dropped |
| SummaryFile.AllSentinel | src_py/SummaryFile.py:123-128 | two counted lines with the same prefix where every instance has the error share the key text prefix + "all" |
| SummaryFile.PartialCountKey | src_py/SummaryFile.py:123-128 | two partially counted lines with the same prefix and the same error count share a key text whatever their instance totals |
| SummaryFile.SentinelDistinct | src_py/SummaryFile.py:126-128 | the "all" key never coincides with a numeric count key |
| SummaryFile.CollectParsed | src_py/SummaryFile.py:99-138 | a visible data line either stops the extraction with its error, is skipped, or contributes its record ahead of the rest |
| SummaryFile.DirectiveProducesNothing | src_py/SummaryFile.py:83-94 | a directive line contributes no record and only replaces the scope for the lines after it |
| SummaryFile.CollectIsParseVisible | src_py/SummaryFile.py:82-138 | the extraction loop equals parsing exactly the lines visible to the mode under their directives |
| SummaryFile.CollectedRecordsValid | src_py/SummaryFile.py:82-138 | every extracted record has a table priority, a valid level and the count-compressed key text |
| SummaryFile.SummarizeSorted | src_py/SummaryFile.py:139 | the returned summary is sorted on (priority, key text), is a permutation of the extracted records, and keeps records with equal keys in extraction order |
| SummaryFile.NonBlank | src_py/SummaryFile.py:64-68 | the stored lines are no more than the file's lines and none of them is empty |
| SummaryFile.NonBlankAppend | src_py/SummaryFile.py:65-68 | reading one more line appends its stripped text exactly when it is not blank |
| SummaryFile.SummaryFileReader.constructor | src_py/SummaryFile.py:57-69 | the reader keeps the file name and exactly the stripped non-blank lines of the file |
| SummaryFile.SummaryFileReader.ExtractSummary | src_py/SummaryFile.py:71-139 | the method's result is the sorted extraction of the stored lines for the mode |
| LogScan.RestCapture | ResultFile.py:72-73 | a "^prefix(.*)" search succeeds exactly on lines starting with the prefix and captures the rest of the line up to, not including, the first newline |
| LogScan.QuotedCapture | ResultFile.py:69-70 | a "^prefix'(.*)'" search captures the text between the prefix and the last quote before the end of the line, and the capture holds no newline |
| LogScan.AdoptKeeps | ResultFile.py:134-150 | a header field that is already set is never overwritten by later lines |
| LogScan.AdoptFirst | ResultFile.py:134-150 | an unset header field takes the non-empty capture of the first line that gives one |
| LogScan.AdoptNone | ResultFile.py:134-150 | a header field stays empty when no line gives a non-empty capture |
| LogScan.FirstMatch | ResultFile.py:151-157 | the category chosen for a line is an entry of the requested source whose pattern is found in the line |
| LogScan.FirstMatchIsFirst | ResultFile.py:151-157 | no entry of the requested source before the chosen one matches the line (the loop breaks at the first hit) |
| LogScan.FindCategory | ResultFile.py:179-183 | the table scan returns the position of the first matching entry of the source, or the table size when none matches |
| LogScan.LogRecordsFacts | ResultFile.py:151-157 | a log gives at most one record per line, each with a log priority, the section of its table entry, and data starting with that section and a space |
| LogScan.NextHeader | ResultFile.py:179-183 | the section in force after a report line is always a report category (the line's own, or the previous one) |
| LogScan.ReportRecords | ResultFile.py:177-187 | reading a report either finishes or stops at a position inside the report |
| LogScan.ReportRecordsCategories | ResultFile.py:179-187 | every report record has a report priority and the section of its table entry |
| LogScan.ReportRecordsCount | ResultFile.py:184-187 | a report read to the end gives exactly one record per line starting with INFO or WARNING |
| LogScan.HeaderFirstNeverStops | ResultFile.py:174-187 | once a section header has been seen, reading never stops on the None section |
| ErrorDetails.DevicePattern | ResultFile.py:212-218 | a top-cell error searches for "^device " and any other error for "^/.*" + the escaped cell + the device, where the device name is cut at its first "(" |
| ErrorDetails.TargetOf | ResultFile.py:210-221 | only a sample is shown exactly when the error count equals the cell count |
| ErrorDetails.Step | ResultFile.py:229-253 | one line never shrinks the error count, and the scan only stops with some output |
| ErrorDetails.Details | ResultFile.py:203-210 | an error text the pattern does not parse is shown as it is; a parsed one fails, with KeyError, exactly when its section is not in the table |
| ErrorDetails.StepQuiet | ResultFile.py:229-253 | every line keeps the rule that nothing is output, or saved, before the first device line is counted |
| ErrorDetails.NoDeviceNoOutput | ResultFile.py:229-254 | when no line matches the device pattern the details are empty |
| ErrorDetails.SampleStopsAtBlank | ResultFile.py:242-244 | for a sample, the first blank line after some output ends the scan |
| ErrorDetails.BlankStopsAfterTen | ResultFile.py:242-244 | otherwise a blank line ends the scan exactly when there is output and more than nine errors have been seen |
| ErrorDetails.FinishedStops | ResultFile.py:250-253 | a "! Finished" line closes the section and ends the scan exactly when there is output |
| ErrorDetails.OutsideSectionIgnored | ResultFile.py:229-253 | outside the error's section, a line that is neither a section heading nor a section end changes nothing |
| ErrorDetails.HeaderNotLeading | ResultFile.py:248-249 | the section heading line is not added a second time to the leading lines |
| ErrorDetails.RunGrows | ResultFile.py:229-254 | the output only grows: what was gathered is a prefix of the final details |
| ErrorDetails.StepGrows | ResultFile.py:236-241 | one line only appends to the output |
| Reconcile.SummaryOnly | ResultFile.py:337-346 | a summary record with no error becomes a 'comment' line when its reference starts with "#", else an 'unmatched' line with "* " before its reference, at level 'unknown', with the summary's data and priority |
| Reconcile.ErrorOnly | ResultFile.py:347-352 | an error with no summary record becomes an 'unchecked' line with no reference, level 'unknown', and the error's data and priority |
| Reconcile.Both | ResultFile.py:353-363 | a matched pair takes the summary's level and the error's data and priority; a commented summary gives an 'unchecked' line with "! " before its reference, any other a 'checked' line |
| Reconcile.MergeStep | ResultFile.py:330-364 | each loop turn emits the line chosen by comparing the two heads and advances the summary index, the error index, or both |
| Reconcile.MergeKeepsErrors | ResultFile.py:330-364 | every error record appears in the display list exactly once, in order |
| Reconcile.MergeKeepsSummaries | ResultFile.py:330-364 | every summary reference appears in the display list exactly once, in order, once its marker is removed |
| Reconcile.MergeLength | ResultFile.py:330-364 | the display list has one line per summary record plus one per error, less one per matched pair |
| Reconcile.MergeAbove | ResultFile.py:330-364 | merging never produces a line below a key that bounds both inputs |
| Reconcile.MergeSorted | ResultFile.py:327-364 | two sorted inputs give a display list sorted on (priority, key text) |
| Reconcile.HeadsAgree | ResultFile.py:331-335 | when comparing the two heads does not raise, it orders them as the keyed comparison does |
| Reconcile.MergeAsWritten | ResultFile.py:330-364 | the loop as written either raises KeyError or produces exactly the keyed merge |
| Reconcile.SharedPriorityRaises | ResultFile.py:330-335 | over sorted lists, a summary record and an error record of the same priority make the loop raise KeyError, because error records have no 'keyData' |
| Reconcile.DisjointPrioritiesComplete | ResultFile.py:330-364 | when no summary record shares a priority with an error record, the loop completes with the keyed merge |
| Reconcile.AsWrittenCompletes | ResultFile.py:330-364 | over sorted lists, the loop as written completes exactly when the two lists share no priority |
| Reconcile.CheckedLineRaises | ResultFile.py:335 | a summary line and the error it checks (priority 21, "SHORT x") merge to one checked line by key, but the loop as written raises KeyError |
| Tally.AddSection | ResultFile.py:284-286 | a section's first record creates its error and checked counters and touches no other counter |
| Tally.CountSection | ResultFile.py:287-291 | a section record changes only its own section's counters |
| Tally.TallyStep | ResultFile.py:274-291 | the tally of a list is one record's step followed by the tally of the rest, or that step alone when it fails |
| Tally.Permille | ResultFile.py:301 | the checked share is between 0 and 1000 tenths of a percent, and is 1000 exactly when there are errors and all are checked |
| Tally.SectionsNotCounters | src_py/cvc_globals.py:33-102 | no table section is named like a level, type or "all" counter, so section counters never clash with them |
| Tally.ConsistentTableCounted | ResultFile.py:294-300 | consistent counters give every counted table section a checked counter no larger than its error counter |
| Tally.InitialConsistent | ResultFile.py:267-273 | the counters as set up before the loop are consistent |
| Tally.StepConsistent | ResultFile.py:274-291 | counting a record with a table priority and a valid level never fails and keeps the counters consistent |
| Tally.StepKeepsConsistent | ResultFile.py:274-291 | any record that counts without failing keeps the counters consistent |
| Tally.TallySucceedsConsistent | ResultFile.py:274-291 | a tally that does not fail ends with consistent counters |
| Tally.TallyConsistent | ResultFile.py:274-291 | a list of records with table priorities and valid levels is counted without failure and leaves consistent counters |
| Tally.StepBumpsOne | ResultFile.py:276-283 | each record adds one to exactly one level or type counter and leaves "all" alone |
| Tally.StepElsewhere | ResultFile.py:276-291 | a record changes no counter except its bucket and its section |
| Tally.CountersAddUp | ResultFile.py:274-291 | after counting, the level and type counters have grown by the number of records and "all" is unchanged |
| Tally.TallyOfList | ResultFile.py:267-291 | for a whole display list the level and type counters sum to the list length, which is also the "all" counter |
| Tally.TotalsSound | ResultFile.py:292-300 | with every counted section carrying its checked counter, the totals never fail and checked never exceeds the total |
| RunResult.ErrorPath | ResultFile.py:108-118 | the error file is looked up beside the current log: the recorded error name without ".gz" plus ".gz" when the log keeps its recorded name, else plus whatever the current log name adds to the recorded one |
| RunResult.ErrorPathUnmoved | ResultFile.py:108-118 | a log read under its recorded name finds "name.gz" in its own directory |
| RunResult.ResultFile.constructor | ResultFile.py:75-95 | a new result starts empty and holds the log's header fields, each from its first matching line, and the log's error records |
| RunResult.ResultFile.LoadReport | ResultFile.py:97-106 | the error file path is computed from the log name; an unopenable file raises IOError and leaves the records alone; an opened one is read as ExtractReportErrors reads it |
| RunResult.ResultFile.ExtractLogErrors | ResultFile.py:120-160 | after the log, each header field is its old value or the first capture, and the records gain the log records of the lines in order |
| RunResult.ResultFile.ReadLine | ResultFile.py:133-157 | one log line moves the header fields and the records one step along the same result the whole log gives |
| RunResult.ResultFile.ReadHeaderLine | ResultFile.py:134-150 | each unset header field takes this line's capture when it has one |
| RunResult.ResultFile.ReadLogLine | ResultFile.py:151-157 | the line adds the record of its first matching log category, or nothing |
| RunResult.ResultFile.ExtractReportErrors | ResultFile.py:162-191 | a report read to the end appends all its lines to the raw data and leaves the records sorted on (priority, data) together with the report's records; an error line before any section header raises TypeError with the lines up to it kept and the records unsorted |
| RunResult.ResultFile.ReadReport | ResultFile.py:177-187 | the loop stores every line read, including the one it stops at, and appends the report records |
| RunResult.ResultFile.ReportStep | ResultFile.py:177-187 | one report line stores the line, keeps the header a report category, and either stops the read or advances it one line |
| RunResult.ResultFile.ReadReportLine | ResultFile.py:178-187 | a report line updates the header to its own category when it has one, is stored, stops the read exactly when it is an error line with no header, and otherwise adds its record under the header |
| RunResult.ResultFile.GetErrorDetails | ResultFile.py:193-254 | the method's result is the details excerpt of the stored report for the error text |
| RunResult.ResultFile.ScanReport | ResultFile.py:229-254 | the loop over the stored report returns the excerpt the line-by-line scan defines |
| RunResult.ResultFile.CountErrors | ResultFile.py:256-303 | the counters are the tally of the display list; when it succeeds the details list each counted table section in table order, then the total, and the percentage is the checked share in tenths of a percent |
| RunResult.ResultFile.TallyRecords | ResultFile.py:274-291 | the loop over the display list leaves the counters and the failure the tally defines, and consistent counters when nothing fails |
| RunResult.ResultFile.CountRecord | ResultFile.py:275-291 | one display record changes the counters as one tally step does |
| RunResult.ResultFile.CountInSection | ResultFile.py:287-291 | a section record bumps its section's error counter and, when checked, its checked counter |
| RunResult.ResultFile.SumSections | ResultFile.py:292-300 | the loop over the table produces the section lines and the two sums that the table-order totals define |
| RunResult.ResultFile.CreateDisplayList | ResultFile.py:305-365 | the display list gains the merge of the mode's sorted summary with the error records and is then counted; a summary that fails to parse raises and leaves the list alone |
| RunResult.ResultFile.MergeDisplay | ResultFile.py:328-364 | the loop appends exactly the merge of the summary and the error records |
| RunResult.ResultFile.MergeOne | ResultFile.py:331-364 | one loop turn advances at least one index and appends the line the merge puts first |
| Review.DropFirst | src_py/summaryGUI.py:994 | Python's `s[2:]`: the rest after the first n characters, or empty when the text is shorter |
| Review.Bracketed | src_py/summaryGUI.py:651-654 | the stripped reference text, wrapped in "[" and "]" unless it already starts with "[" |
| Review.Hashed | src_py/summaryGUI.py:679-681 | the stripped comment text, with "#" put in front unless it already starts with "#" |
| Review.LevelMark | src_py/summaryGUI.py:652 | the position found is the first "] " in the reference at or after the start |
| Review.Apply | src_py/summaryGUI.py:655-716 | an edit of one selected record never changes its priority, its data or its key |
| Review.ApplyAt | src_py/summaryGUI.py:655-664 | editing the selected positions keeps the length of the display list |
| Review.ApplyAtEffect | src_py/summaryGUI.py:655-716 | with distinct selected positions, exactly the selected records are edited and every other one is left as it is |
| Review.ApplyAtKeys | src_py/summaryGUI.py:655-716 | whatever the selection, every record keeps its key and data |
| Review.ReferenceReplaced | src_py/summaryGUI.py:651-661 | "replace" makes the record checked at the chosen level with the bracketed reference followed by the level |
| Review.ReferenceKept | src_py/summaryGUI.py:652-664 | "keep" swaps only the level after the reference's "] " |
| Review.CommentKeepsText | src_py/summaryGUI.py:679-690 | commenting an unmatched line makes it a comment whose reference is the comment followed by the original reference without "* " |
| Review.ClearFacts | src_py/summaryGUI.py:706-716 | clearing sets the level to 'unknown'; comment and unmatched lines become unmatched with reference "* ", all others unchecked with no reference |
| Review.ClearIdempotent | src_py/summaryGUI.py:706-716 | clearing twice is the same as clearing once |
| Review.Copied | src_py/summaryGUI.py:957-976 | copying into a record never changes its key or data |
| Review.CopyThenCommit | src_py/summaryGUI.py:957-994 | a check copied onto an unchecked record leaves it uncommitted, and committing it gives back the source's reference and level |
| Review.CopyMerge | src_py/summaryGUI.py:942-978 | the two-index walk keeps the length of the target list |
| Review.CopyMergeEffect | src_py/summaryGUI.py:942-978 | each target record keeps its key and data, and is either unchanged or updated from a source record with the same key; records already passed are not touched |
| Review.CopyMergeAsWritten | src_py/summaryGUI.py:942-978 | the copy walk as written either raises KeyError or gives exactly the keyed walk |
| Review.CopyWalkRaises | src_py/summaryGUI.py:944-948 | over sorted lists, a source record and a target record of the same priority make the walk raise KeyError, because display records have no 'keyData' |
| Review.CopyDisjointCompletes | src_py/summaryGUI.py:942-978 | when no source record shares a priority with a target record, the walk completes with the keyed walk |
| Review.NoPartnerUnchanged | src_py/summaryGUI.py:944-978 | a target record with no source record of the same key is left unchanged |
| Review.Edited | src_py/summaryGUI.py:600-606 | an edit pushes the old list on the undo stack and empties the redo stack |
| Review.Undone | src_py/summaryGUI.py:608-617 | undo always pushes the current list on the redo stack, and fails with IndexError exactly when the undo stack is empty |
| Review.Redone | src_py/summaryGUI.py:621-630 | redo always pushes the current list on the undo stack, and fails with IndexError exactly when the redo stack is empty |
| Review.UndoRedo | src_py/summaryGUI.py:608-632 | undo followed by redo gives back the display list and both stacks |
| Review.RedoUndo | src_py/summaryGUI.py:608-632 | redo followed by undo gives back the display list and both stacks |
| Review.UndoEdit | src_py/summaryGUI.py:600-617 | undoing an edit restores the list before it and leaves the edited list as the only redo entry |
| Review.ModeContent.constructor | src_py/summaryGUI.py:156-173 | a mode's tab holds its report with empty undo and redo stacks |
| Review.ModeContent.AddUndo | src_py/summaryGUI.py:600-606 | the current display list is pushed on the undo stack and the redo stack is emptied |
| Review.ModeContent.UndoChanges | src_py/summaryGUI.py:608-619 | the tab's list and stacks become those of one undo, and after a successful undo the counters are recounted |
| Review.ModeContent.RedoChanges | src_py/summaryGUI.py:621-632 | the tab's list and stacks become those of one redo, and after a successful redo the counters are recounted |
| Review.ModeContent.EditSelected | src_py/summaryGUI.py:655-664 | the loop over the selection leaves exactly the edited display list |
| Review.ModeContent.Review | src_py/summaryGUI.py:650-667 | an edit button pushes an undo copy, edits the selected records and recounts |
| Review.ModeContent.AddReference | src_py/summaryGUI.py:634-667 | "ask" changes nothing; otherwise the selected records become checked at the level with the bracketed reference replaced or kept, after an undo push, and are recounted |
| Review.ModeContent.AddComment | src_py/summaryGUI.py:669-693 | the selected records become comments with the hashed comment text, after an undo push, and are recounted |
| Review.ModeContent.ClearReference | src_py/summaryGUI.py:695-719 | the selected records are cleared, after an undo push, and are recounted |
| Review.ModeContent.CommitReferences | src_py/summaryGUI.py:983-997 | the selected records become checked with their first two reference characters removed, after an undo push, and are recounted |
| Review.ModeContent.DeleteSummary | src_py/summaryGUI.py:999-1017 | the display list keeps exactly the records at unselected positions, in order, after an undo push, and is recounted |
| Review.ModeContent.DeleteSelected | src_py/summaryGUI.py:1008-1014 | deleting from the highest position down leaves exactly the records at unselected positions |
| Review.ModeContent.CopyReferences | src_py/summaryGUI.py:940-979 | a target tab gets an undo push, then the copy walk over the source list, then a recount |
| Review.ModeContent.CopyFrom | src_py/summaryGUI.py:942-978 | the walk leaves the target list the copy merge defines |
| Review.ModeContent.UpdateDisplayList | src_py/summaryGUI.py:1064-1086 | the backward loop commits uncommitted lines when auto-committing, strips "* " from unmatched lines when they are saved, and deletes them when they are not |
| Review.ModeContent.PrepareForSave | src_py/summaryGUI.py:1133-1141 | a tab pushes an undo copy exactly when the save commits uncommitted lines or deletes unmatched ones, then updates its list for the save |
| Review.ModeContent.FinalizeSave | src_py/summaryGUI.py:1240-1246 | each tab is recounted, then "* " is put back on its unmatched lines when they were saved |
| Review.ModeContent.Remark | src_py/summaryGUI.py:1243-1246 | every unmatched record gets "* " back in front of its reference and nothing else changes |
| Review.SaveRestores | src_py/summaryGUI.py:1064-1086 | saving with unmatched lines and without auto-commit, then restoring the markers, gives back the list whenever every unmatched line carried its "* " |
| Review.SavedUnmarked | src_py/summaryGUI.py:1076-1084 | such a save keeps every record in place and only strips the first two characters of unmatched references |
| Review.ForSaveDropsUnmatched | src_py/summaryGUI.py:1076-1086 | a save without unmatched lines leaves none, and with auto-commit leaves no uncommitted line |
| Review.RemarkedTally | src_py/summaryGUI.py:1240-1246 | putting the markers back does not change the counts just taken |
| Review.KeptMembers | src_py/summaryGUI.py:1008-1014 | a record remains after a delete exactly when it stood at an unselected position |
| Review.KeptNothing | src_py/summaryGUI.py:1008-1014 | deleting an empty selection keeps the whole list |
| Review.SplitNumber | src_py/summaryGUI.py:527 | `(.*?)(\d*)(\D*)$` splits the text into a head, the last run of digits and a digit-free tail, the head ending in a non-digit when there are digits |
| Review.SplitNumberUnique | src_py/summaryGUI.py:527 | that split is the only one with those properties |
| Review.DigitsInjective | src_py/summaryGUI.py:531 | two digit strings of the same width with the same value are equal, so zero-padding to the old width is lossless |
| Review.IncrementReference | src_py/summaryGUI.py:526-528 | a reference with no digit anywhere is left as it is; one with a digit has a non-empty last digit run to move |
| Review.IncrementFacts | src_py/summaryGUI.py:516-533 | the new reference keeps the head and tail, its number is max(0, n + increment), it never has fewer digits, and a decrement never changes the number of digits |
| Review.DecrementIncrement | src_py/summaryGUI.py:516-533 | decrementing a positive number and incrementing it again gives back the original text |
| Saving.Unprinted | src_py/summaryGUI.py:1145-1155 | the loop answers true exactly when some mode still has records past its read position |
| Saving.GetLeastItem | src_py/summaryGUI.py:1157-1167 | the loop returns the least of the modes' current records as the left-to-right scan defines it |
| Saving.LeastFacts | src_py/summaryGUI.py:1157-1167 | there is a least record exactly when some mode has one; it is some mode's record, no record has a smaller key, and of equal keys the last mode's record is taken |
| Saving.ItemsAgree | src_py/summaryGUI.py:1165 | when comparing two modes' records does not raise, it orders them as the keyed comparison does |
| Saving.LeastAsWritten | src_py/summaryGUI.py:1157-1167 | the loop as written either raises KeyError or returns exactly the keyed least record |
| Saving.LeastTieRaises | src_py/summaryGUI.py:1163-1166 | two modes' records that share the lowest priority seen so far make the loop raise KeyError |
| Saving.SameErrorRaises | src_py/summaryGUI.py:1165 | two modes holding the same record have that record as the keyed least, but the loop as written raises KeyError |
| Saving.FindOutputModes | src_py/summaryGUI.py:1169-1189 | the applied modes are those whose record has the printed reference and data, the output modes those of them whose record is checked, comment or unmatched, both in mode order, and exactly the applied modes advance |
| Saving.SelectFacts | src_py/summaryGUI.py:1180-1188 | a selected mode is exactly a mode whose mask is set; all modes are selected exactly when every mask is set |
| Saving.OutputsApplied | src_py/summaryGUI.py:1180-1188 | every output mode is an applied mode |
| Saving.RemainingShrinks | src_py/summaryGUI.py:1288-1299 | advancing read positions never adds to the records left, and advancing any one removes some |
| Saving.RoundAdvances | src_py/summaryGUI.py:1288-1295 | while records are left, a round finds a least record and advances at least the mode it came from, so the merge loop ends |
| Saving.Initial | src_py/summaryGUI.py:1088-1095 | a save starts with no discrepancy, no output and no report |
| Saving.Compared | src_py/summaryGUI.py:1191-1203 | a comment line changes nothing; any other line becomes the last one seen, and a discrepancy is reported exactly when it is not an auto-save and the same error was last written with a different summary line |
| Saving.ExcludedFacts | src_py/summaryGUI.py:1211-1212 | the "#IFNOT" list holds exactly the modes with no output, sorted and without repeats |
| Saving.ExcludedEmpty | src_py/summaryGUI.py:1211-1212 | the "#IFNOT" list is empty exactly when every mode has output |
| Saving.Written | src_py/summaryGUI.py:1205-1214 | writing a line appends the heading that the change of output modes requires, then the line, and records the output modes |
| Saving.AlwaysExactly | src_py/summaryGUI.py:1207-1212 | "#ALWAYS" is written exactly when no mode is excluded |
| Saving.Choose | src_py/summaryGUI.py:1289-1295 | one choice of the printed record leaves the positions in range and fewer records to read |
| Saving.Round | src_py/summaryGUI.py:1289-1299 | one round of the save loop leaves the positions in range and fewer records to read |
| Saving.Merge | src_py/summaryGUI.py:1286-1299 | the save loop ends with every mode's list read to its end |
| Saving.Start | src_py/summaryGUI.py:1287 | every mode starts at position 0 |
| Saving.RoundExtends | src_py/summaryGUI.py:1289-1299 | a round only appends to the text and the discrepancy reports, and reports nothing during an auto-save |
| Saving.ExtendsTransitive | src_py/summaryGUI.py:1288-1299 | appending only is preserved across rounds |
| Saving.MergeFacts | src_py/summaryGUI.py:1286-1299 | the save reads every mode's list to its end and only appends to the text and the reports |
| Saving.GatherItems | src_py/summaryGUI.py:1289-1292 | the loop takes each mode's record at its position, or none at the end of its list |
| Saving.PrintCSVHeader | src_py/summaryGUI.py:1107-1112 | the header is "Reference,Level,Type,Device", one column per mode, then a newline |
| Saving.ExportCSV | src_py/summaryGUI.py:1216-1230 | a row is the reference, level, type and device, then per mode the quoted count (or "*") when the mode has output and an empty cell otherwise |
| Saving.CellList | src_py/summaryGUI.py:1225-1229 | there is one cell per mode |
| Saving.HeaderColumns | src_py/summaryGUI.py:1107-1112 | split on commas, the header line is exactly the four fixed columns followed by the modes |
| Saving.RowColumns | src_py/summaryGUI.py:1216-1230 | split on commas, a row has the four captured fields then one cell per mode, as many columns as the header |
| Saving.ExportRound | src_py/summaryGUI.py:1328-1343 | one export round leaves the positions in range and fewer records to read |
| Saving.Export | src_py/summaryGUI.py:1321-1343 | the export loop ends with every mode's list read to its end |
| Saving.ExportRowMeaning | src_py/summaryGUI.py:1333-1343 | a row is written only for a record that some output mode has at its position, is of a written type and carries the same reference and data, and never for a comment line |
| Widget.SortedModes | src_py/summaryGUI.py:1285 | sorting distinct mode names gives a strictly increasing list of the same names |
| Widget.DistinctCount | src_py/summaryGUI.py:1285 | distinct mode names occur once each |
| Widget.NamesOf | src_py/summaryGUI.py:1114-1119 | there is one mode name per tab |
| Widget.NamedAt | src_py/summaryGUI.py:1142 | with distinct mode names, the list filed under a tab's name is that tab's list |
| Widget.FiledNamed | src_py/summaryGUI.py:1132-1143 | the dict returned holds exactly the tabs' mode names, each with the save form of the last tab list filed under it |
| Widget.FiledNamedUpTo | src_py/summaryGUI.py:1133-1142 | after the first n tabs the dict holds exactly their names, each with the save form of its list |
| Widget.Prepared | src_py/summaryGUI.py:1286 | there is one prepared list per mode |
| Widget.InOrder | src_py/summaryGUI.py:1290-1292 | the dict's lists taken in mode order give one list per mode |
| Widget.ListsPrepared | src_py/summaryGUI.py:1285-1292 | every sorted mode has a list in the dict, and reading the dict in mode order gives the prepared lists |
| Widget.SummaryWidget.constructor | src_py/summaryGUI.py:453-480 | the viewer holds the given tabs with nothing changed, nothing to auto-save, a fresh save session and no export output |
| Widget.SummaryWidget.NamesAt | src_py/summaryGUI.py:1114-1119 | the i-th mode name is the i-th tab's report's mode |
| Widget.SummaryWidget.Snapshot | src_py/summaryGUI.py:1133-1142 | the tabs' names and lists as the save reads them, one pair per tab |
| Widget.SummaryWidget.SnapshotNames | src_py/summaryGUI.py:1114-1119 | the names of the snapshot are the names the mode loop collects |
| Widget.SummaryWidget.SnapshotAt | src_py/summaryGUI.py:1133-1142 | the snapshot's i-th pair is the i-th tab's mode and display list |
| Widget.SummaryWidget.InitializeSave | src_py/summaryGUI.py:1088-1094 | the discrepancy flag, the last data, output and mode lists are reset and nothing else changes |
| Widget.SummaryWidget.GetModes | src_py/summaryGUI.py:1114-1119 | the loop returns the tabs' mode names in tab order |
| Widget.SummaryWidget.CheckDiscrepancies | src_py/summaryGUI.py:1191-1203 | the session becomes the one the discrepancy comparison defines |
| Widget.SummaryWidget.OutputSummary | src_py/summaryGUI.py:1205-1214 | the summary text and the last output modes become what writing the line defines |
| Widget.SummaryWidget.WriteSummary | src_py/summaryGUI.py:1287-1299 | the merge loop leaves the session the multi-mode merge defines |
| Widget.SummaryWidget.ExportRows | src_py/summaryGUI.py:1322-1343 | the export loop leaves the CSV text and the lines with no CSV form that the export defines |
| Widget.SummaryWidget.GetDisplayLists | src_py/summaryGUI.py:1121-1143 | each tab gets its undo push when needed and its list prepared, and the returned dict files each prepared list under its mode |
| Widget.SummaryWidget.FinalizeSave | src_py/summaryGUI.py:1232-1249 | a user save records the file name and clears the changed flag, an auto-save keeps both, the auto-save flag is cleared, and every tab is recounted with "* " put back when unmatched lines were saved |
| Widget.SummaryWidget.RecountTabs | src_py/summaryGUI.py:1240-1246 | every tab is recounted, then its unmatched lines are re-marked when they were saved |
| Widget.SummaryWidget.CollectLists | src_py/summaryGUI.py:1285-1292 | the modes are the sorted tab names, and the lists are the tabs' lists prepared for the save in that order |
| Widget.SummaryWidget.WriteSession | src_py/summaryGUI.py:1284-1299 | the session after writing is the merge of the prepared lists from a reset session, and every tab is prepared |
| Widget.SummaryWidget.SaveSummary | src_py/summaryGUI.py:1261-1301 | a file that cannot be opened changes nothing; otherwise the summary text is the merge of the prepared lists, every tab is prepared, recounted and re-marked, and the file name and flags are updated |
| Widget.SummaryWidget.SaveOpened | src_py/summaryGUI.py:1282-1301 | with the file open: the summary is written, each tab is saved and recounted, and the file name and flags are set as the save finishes |
| Widget.SummaryWidget.WriteExport | src_py/summaryGUI.py:1318-1343 | the CSV is the header then the rows of the merge over lists prepared with no auto-commit and no unmatched lines, which deletes unmatched lines from the tabs |
| Widget.SummaryWidget.ExportSummary | src_py/summaryGUI.py:1303-1346 | a file that cannot be opened changes nothing; otherwise the CSV is written as above and every tab loses its unmatched lines after an undo push |

## Left out

- Regular expressions are not modelled as such. The summary-line, log-line, report-line and export patterns, the validity test inside the fuzzy filter and the cell patterns of models are predicates or parameters; each model states what the matching must return, not how a pattern engine computes it.
- Floating-point voltage, current and resistance calculations (the power map's voltage calculation, the parameter map's resistance calculation, the numbers normal values convert to (only which value texts fail to convert is modelled), estimated currents, resistor voltages, SI-suffix printing and voltage parsing) are not part of this model.
- Python floating point: percentages and ratios are modelled as integer permille, floor(1000 * count / total), and 0 when the total is 0.
- File, console and GUI I/O: reading and writing files, prints and logging, the auto-save file and its removal, and the printed totals are left out. The model works on the lines read and the lines written.
- Models.ModelListMap.FindModel: does not compute resistances. The resistance calculation, the resistance and power exceptions it can raise, and the parameter resistance map are not part of this model.
- Power.CalculatePower: the power of a default net's alias is passed in as a parameter rather than looked up through the full power map.
- DbUtility.ExpandBusNet: the numeric conversion of the bus indices is a parameter, and 32-bit overflow of those indices is not modelled.
- Circuits: instance and device totals, and the crossing and sub-circuit tests on paths, require that the circuit hierarchy is acyclic, listed parents first, and that every named terminal exists; the source assumes this of a parsed netlist and does not check it.
- VirtualNets.VirtualNetVector.Set: requires the next net to lie inside the vector; the source relies on the caller for this.
- Review.ModeContent.DeleteSummary: an index selected twice deletes the record once; the source's list of selected rows has no duplicates.
- Review.IncrementReference: recognises only ASCII digits as a trailing number; Python's Unicode digits are not modelled.
- EventQueues.EventQueue.ResetQueue: promises a valid queue afterwards only when its event lists were already empty, as they are between propagation passes; resetting with events still queued would orphan them.
- Inverters.InverterNets.SetInverterInput: the C++ call stack is modelled by a depth parameter; a call that exhausts it changes nothing and reports that it ran out.
- Propagation.ConnectionCounts.PropagateConnectionType: the report written for an over-limit device and the assertion inside the loop are left out; the model returns the limit error instead.
- The device to ignore, passed to the connection-list merge of net equivalence, is read only in code that is commented out, so the merge model has no such parameter.
- The rest of the propagation engine (minimum, maximum and simulated voltage propagation, the leak and breakdown checks, and terminal minimum and maximum leak voltages) is not part of this model; only the reroute decision, queue priority, the topological off-MOS test, the last-connection tests and connection-type propagation are.
- Error printing in CCvcDb_error.cc, netlist reading and analysis, and the printing of ignored cells and box-cell usage are not part of this model.
- Python 2 dictionary order: outside expand_cells.py, dictionaries are modelled as maps and every listing the review tool shows is sorted; iteration order of a plain dictionary is not modelled.
- ExpandCells.Names / ExpandCells.Netlist.PrintSmallCells: the count dictionaries keep insertion order where the script walks Python 2 hash order (scripts/expand_cells.py:218); the counts agree on an acyclic hierarchy, but the order of the printed exclusion lines is not the script's.
- Circuit tables (the dictionaries from names to circuits and instances) are modelled as values, not as shared objects; aliasing between them is not captured.
- Equations.Postfix: states the order of the operands and the "0" inserted before a unary minus, not where each operator lands (precedence and left associativity).
- ModelLines: the lemmas about model-file lines cover one written form of each line (single spaces, keys in order), not every spelling the parser accepts.
- CircuitErrors.ErrorLine: states only the fixed prefix of the summary line, not the formatting of the device name and counts after it.
- The kivy widgets, popups, keyboard handling and the clock that drives auto-save are left out; the widget model keeps their state and the operations they trigger.
- Review.ModeContent.CopyReferences: is modelled per target tab; the loop over all target tabs is a sequence of such calls. It uses the keyed comparison where the copy walk raises KeyError at equal priorities; it states the evidently intended result, not the KeyError.
- CompareErrors reads 'keyData', which only summary records carry: error records and display records have none, so at equal priorities the source raises KeyError (see Findings). The members below model the comparison on the evidently intended key, (priority, keyData) for summary records, (priority, data) for error records and (priority, key text) for display records, whose key text is a field the model adds (the keyData or data of the record a display line was built from); their contracts describe that keyed behaviour and not the KeyError of the code as written, which Reconcile.MergeAsWritten, Review.CopyMergeAsWritten and Saving.LeastAsWritten model.
- Reconcile.Merge: uses the keyed comparison where CreateDisplayList's loop raises KeyError at equal priorities; it states the evidently intended result, not the KeyError.
- Reconcile.MergeStep: uses the keyed comparison where CreateDisplayList's loop raises KeyError at equal priorities; it states the evidently intended result, not the KeyError.
- Reconcile.MergeKeepsErrors: uses the keyed comparison where CreateDisplayList's loop raises KeyError at equal priorities; it states the evidently intended result, not the KeyError.
- Reconcile.MergeKeepsSummaries: uses the keyed comparison where CreateDisplayList's loop raises KeyError at equal priorities; it states the evidently intended result, not the KeyError.
- Reconcile.MergeLength: uses the keyed comparison where CreateDisplayList's loop raises KeyError at equal priorities; it states the evidently intended result, not the KeyError.
- Reconcile.MergeAbove: uses the keyed comparison where CreateDisplayList's loop raises KeyError at equal priorities; it states the evidently intended result, not the KeyError.
- Reconcile.MergeSorted: uses the keyed comparison where CreateDisplayList's loop raises KeyError at equal priorities; it states the evidently intended result, not the KeyError.
- RunResult.ResultFile.CreateDisplayList: uses the keyed comparison where CreateDisplayList's loop raises KeyError at equal priorities; it states the evidently intended result, not the KeyError.
- RunResult.ResultFile.MergeDisplay: uses the keyed comparison where CreateDisplayList's loop raises KeyError at equal priorities; it states the evidently intended result, not the KeyError.
- RunResult.ResultFile.MergeOne: uses the keyed comparison where CreateDisplayList's loop raises KeyError at equal priorities; it states the evidently intended result, not the KeyError.
- Review.CopyMerge: uses the keyed comparison where the copy walk of CopyReferences raises KeyError at equal priorities; it states the evidently intended result, not the KeyError.
- Review.CopyMergeEffect: uses the keyed comparison where the copy walk of CopyReferences raises KeyError at equal priorities; it states the evidently intended result, not the KeyError.
- Review.NoPartnerUnchanged: uses the keyed comparison where the copy walk of CopyReferences raises KeyError at equal priorities; it states the evidently intended result, not the KeyError.
- Review.ModeContent.CopyFrom: uses the keyed comparison where the copy walk of CopyReferences raises KeyError at equal priorities; it states the evidently intended result, not the KeyError.
- Saving.GetLeastItem: uses the keyed comparison where _GetLeastItem raises KeyError at equal priorities; it states the evidently intended result, not the KeyError.
- Saving.LeastFacts: uses the keyed comparison where _GetLeastItem raises KeyError at equal priorities; it states the evidently intended result, not the KeyError.
- Saving.RoundAdvances: uses the keyed comparison where _GetLeastItem inside the save loop raises KeyError at equal priorities; it states the evidently intended result, not the KeyError.
- Saving.Choose: uses the keyed comparison where _GetLeastItem inside the save loop raises KeyError at equal priorities; it states the evidently intended result, not the KeyError.
- Saving.Round: uses the keyed comparison where _GetLeastItem inside the save loop raises KeyError at equal priorities; it states the evidently intended result, not the KeyError.
- Saving.Merge: uses the keyed comparison where _GetLeastItem inside the save loop raises KeyError at equal priorities; it states the evidently intended result, not the KeyError.
- Saving.MergeFacts: uses the keyed comparison where _GetLeastItem inside the save loop raises KeyError at equal priorities; it states the evidently intended result, not the KeyError.
- Saving.ExportRound: uses the keyed comparison where _GetLeastItem inside the export loop raises KeyError at equal priorities; it states the evidently intended result, not the KeyError.
- Saving.Export: uses the keyed comparison where _GetLeastItem inside the export loop raises KeyError at equal priorities; it states the evidently intended result, not the KeyError.
- Widget.SummaryWidget.WriteSummary: uses the keyed comparison where _GetLeastItem inside the save loop raises KeyError at equal priorities; it states the evidently intended result, not the KeyError.
- Widget.SummaryWidget.WriteSession: uses the keyed comparison where _GetLeastItem inside the save loop raises KeyError at equal priorities; it states the evidently intended result, not the KeyError.
- Widget.SummaryWidget.SaveSummary: uses the keyed comparison where _GetLeastItem inside the save loop raises KeyError at equal priorities; it states the evidently intended result, not the KeyError.
- Widget.SummaryWidget.SaveOpened: uses the keyed comparison where _GetLeastItem inside the save loop raises KeyError at equal priorities; it states the evidently intended result, not the KeyError.
- Widget.SummaryWidget.ExportRows: uses the keyed comparison where _GetLeastItem inside the export loop raises KeyError at equal priorities; it states the evidently intended result, not the KeyError.
- Widget.SummaryWidget.WriteExport: uses the keyed comparison where _GetLeastItem inside the export loop raises KeyError at equal priorities; it states the evidently intended result, not the KeyError.
- Widget.SummaryWidget.ExportSummary: uses the keyed comparison where _GetLeastItem inside the export loop raises KeyError at equal priorities; it states the evidently intended result, not the KeyError.
- The standard-library behaviour the source relies on (Python string methods, os.path, std::string) is modelled only as far as the modules Text, Paths, Scan and CppString define it.

## Findings

| source | as written | input that shows it | evidently intended | confidence | as-written member | corrected member |
|---|---|---|---|---|---|---|
| src/utility.cc:96-100 | an unclosed "(" makes npos + 1 wrap to 0, so the whole path is appended again | "a(b" gives "aa(b" | "a" | not executed | TextUtility.UnclosedGroupRepeatsPath | TextUtility.RemoveCellNames |
| src/CCvcDb.cc:2775-2783 | the highLow flag of a net is set from a neighbour that was already re-pointed, so polarity is lost along inverter chains | inverterNet [1, 2, UNKNOWN_NET, 0] gives highLow [true, true, false, false] | [false, true, false, true] | not executed | Inverters.SweepLosesPolarity | Inverters.CompressedPolarity |
| src/CCvcDb.cc:2762-2773 | the recursion never ends on a pair of cross-coupled inverters | inverterNet [1, 0, 0] | the compression terminates | not executed | Inverters.LatchNeverSettles | Inverters.LatchCompressed |
| ResultFile.py:330-335 | CompareErrors reads 'keyData' of the error record, which has none, so a summary record and an error record of one priority raise KeyError | summary line "[r] ERROR SHORT x" and error "SHORT x", both priority 21 | one 'checked' display line | not executed | Reconcile.CheckedLineRaises | RunResult.ResultFile.CreateDisplayList |
| src_py/summaryGUI.py:944-948 | CompareErrors reads 'keyData' of display records, which have none, so the copy walk raises KeyError as soon as two records of one priority meet | a source list and a target list sorted alike, both holding a record of priority 21 | the reference and level copied between records with the same key | not executed | Review.CopyWalkRaises | Review.ModeContent.CopyReferences |
| src_py/summaryGUI.py:1163-1166 | CompareErrors reads 'keyData' of display records, which have none, so two modes' current records of one priority raise KeyError | two modes whose current record is the same error | that error is the least record | not executed | Saving.SameErrorRaises | Saving.GetLeastItem |
