# ommpfritt core logic in Dafny

This project models the node-graph-to-shader compiler of ommpfritt and proves properties of it.
It also models the small pieces of sequential logic that sit around the compiler in the same program.

- `node_compiler.dfy` (module `NodeCompiler`): the compile pipeline of `NodeCompiler::compile`.
  - The header comes first.
  - Then one definition per used node type, in ascending name order.
  - Then the program start, one emission per statement, and the program end.
  - The first stage that returns a non-empty message aborts the compile with that message and produces no code.
  - Otherwise the emitted lines are joined with newlines.
- `node_graph.dfy` (module `NodeGraph`): the node graph as the compiler reads it.
  - Nodes and their typed, flavoured, indexed ports.
  - The ten data-type names.
  - Port identifiers (`uuid`).
  - Sorting ports by index.
- `glsl_backend.dfy` (module `GlslBackend`): the GLSL backend.
  - The type table and sibling lookup.
  - Uniform extraction.
  - Argument forwarding and the per-output call lines.
  - The forwarding assignments and the "exactly one fragment node" check.
  - Each stage's text is a function with lemmas about it. The class `NodeCompilerGlsl` builds the same lines step by step in its stage methods and proves that it meets those functions.
- `ports.dfy` (module `Ports`): the two-sided connection bookkeeping of input and output ports (`port.cpp`).
- `settings_tree.dfy` (module `Settings`): the settings tree.
  - The line parser of `load_from_file`.
  - `group`, `rowCount`, and `store`/`restore`.
- `main_cli.dfy` (module `MainCli`): the command-line renderer.
  - Integer, size and required options.
  - The frame-number file name template.
  - The frame loop.
- `property_manager.dfy` (module `PropertyManager`): the keys a selection shares, `tab/name` key splitting, and the tabs built per category.
- `numeric_edit.dfy` (module `NumericEdit`): the numeric line edit instantiated with `int`.
  - Bounds, step and parse.
  - `set_value` and `increment`.
  - The min/max edit pair.
- `actions.cpp` is modelled in `actions.dfy` (module `Actions`):
  - selecting, deselecting and inverting path points;
  - the contiguous ranges of `remove_selected_points`;
  - the tangent map of `modify_tangents`;
  - the top-level/leftover rounds of `convert_objects`.
- `cloner.dfy` (module `Clones`): the cloner.
  - Mode-dependent property visibility and the clone count.
  - Cycling through the children and grid cells.
  - `get_t`'s degenerate case and `convert`'s naming.
- `typed_property.dfy` (module `TypedProperties`): the value/default cell of a typed property.
- `maybe_owner.dfy` (module `MaybeOwners`): the optionally owning handle.
- `text.dfy` and `wrappers.dfy`: helpers.
  - Qt and C string operations: trimming, splitting, joining, decimal text and padding.
  - `Option` and `Result`.

Every `exit(EXIT_FAILURE)` and `LFATAL` of the source is an `Err` value carrying the logged message.

Where the code and the design description disagree, the model follows the code:

- Sibling lookup:
  - The design describes a sibling link fixed when the port is created.
  - `get_sibling` (`src/managers/nodemanager/nodecompilerglsl.cpp:25-44`) searches the node's ports each time.
  - `GlslBackend.Sibling` models the search.
- When a Property output becomes a uniform:
  - The design says "iff its sibling input exists and is unconnected".
  - The code (`nodecompilerglsl.cpp:96`) also declares a uniform when there is no sibling at all.
  - `GlslBackend.IsUniform` follows the code.

## Model

| member | source | states |
|---|---|---|
| NodeGraph.TypeNamesDistinct | src/managers/nodemanager/nodecompiler.h:21-30 | The ten data types have ten pairwise distinct names. |
| NodeGraph.NodeTypeNameInjective | src/managers/nodemanager/nodecompilerglsl.cpp:116-118 | Two valid node types with the same name are the same type. So comparing `node->type()` with `FragmentNode::TYPE` (or `VertexNode::TYPE`) decides the node's type. |
| NodeGraph.UuidShape | src/managers/nodemanager/port.cpp:98-102 | A port identifier starts with `i_` for an input and `o_` for an output, then the label, then `_`. |
| NodeGraph.UuidDistinct | src/managers/nodemanager/port.cpp:93-106 | Ports of different types never share an identifier. Neither do ports whose 5-character address suffixes differ. |
| NodeGraph.SortByIndex | src/managers/nodemanager/nodecompilerglsl.cpp:145-153 | `sort_ports` returns the same ports, each as often as before (a permutation). |
| NodeGraph.SortByIndexSorted | src/managers/nodemanager/nodecompilerglsl.cpp:145-153 | `sort_ports` returns the ports in ascending index order. |
| NodeCompiler.Stages | src/managers/nodemanager/nodecompiler.h:97-111 | A compile runs one stage per used node type and per statement, plus three more. |
| NodeCompiler.StagesFrame | src/managers/nodemanager/nodecompiler.h:97-111 | The header is the first stage and occurs nowhere else. The program start follows the definitions. The program end is the last stage and occurs nowhere else. |
| NodeCompiler.StagesDefine | src/managers/nodemanager/nodecompiler.h:98-100 | A type is defined iff it is used. Definitions sit between the header and the program start. They come in strictly ascending name order, so each type is defined exactly once. |
| NodeCompiler.StagesEmit | src/managers/nodemanager/nodecompiler.h:104-110 | Statement k is emitted at its own position after the program start. No other statement is emitted. |
| NodeCompiler.FirstError | src/managers/nodemanager/nodecompiler.h:90-95 | Gives the first stage that reports a non-empty message: every stage before it reported none. |
| NodeCompiler.CollectOutcome | src/managers/nodemanager/nodecompiler.h:90-117 | Without errors the pipeline yields every stage's lines in order. Otherwise it aborts with the message of the first failing stage. |
| NodeCompiler.LaterStagesIgnored | src/managers/nodemanager/nodecompiler.h:90-95 | Once a stage fails, no later stage influences the outcome. |
| NodeCompiler.AbortsAt | src/managers/nodemanager/nodecompiler.h:90-95 | A failing stage after error-free stages aborts the compile with exactly its message. |
| NodeCompiler.AllLinesSplitLast | src/managers/nodemanager/nodecompiler.h:97-111 | The collected lines are those of every stage but the last, followed by the last stage's lines. |
| NodeCompiler.LastStageDecides | src/managers/nodemanager/nodecompiler.h:90-95 | After error-free stages, the compile aborts iff the last stage reports a message, and then with that message. |
| GlslBackend.TranslateType | src/managers/nodemanager/nodecompilerglsl.cpp:51-70 | The result is a GLSL type name iff the input is one of the eight mapped data-type names. Any other name yields `INVALID[<name>]`. |
| GlslBackend.TranslateTypeTable | src/managers/nodemanager/nodecompilerglsl.cpp:51-70 | The mappings are Color→vec4, Reference→uint, Bool→bool, Float→float, Integer→int, FloatVector→vec2, IntegerVector→ivec2 and Options→int. String and Invalid give `INVALID[String]` and `INVALID[Invalid]`. |
| GlslBackend.GlslTypeAgrees | src/managers/nodemanager/nodecompilerglsl.h:21 | The translation of a port's type depends on the type name alone and agrees with the per-type table. |
| GlslBackend.FirstSiblingAt | src/managers/nodemanager/nodecompilerglsl.cpp:36-42 | The loop stops at the first candidate with the same flavour, the other port type and the same property. Every candidate before it fails the test. |
| GlslBackend.SiblingSpec | src/managers/nodemanager/nodecompilerglsl.cpp:25-44 | A found sibling is on the same node and is a Property port of the other type with the same property. No port of the node before it qualifies. There is no sibling iff the port is not a Property port or no port of its node qualifies. |
| GlslBackend.GetSibling | src/managers/nodemanager/nodecompilerglsl.cpp:25-44 | The search loop returns exactly the sibling `SiblingSpec` characterises. |
| GlslBackend.FirstSiblingEarliest | src/managers/nodemanager/nodecompilerglsl.cpp:36-42 | The candidate where the search stops is on the port's node, and no port of that node with a smaller index is a sibling. |
| GlslBackend.NoSiblingOnNode | src/managers/nodemanager/nodecompilerglsl.cpp:36-43 | When the search runs off the end, no port of the node is a sibling, so `nullptr` is right. |
| GlslBackend.UniformOrForwarded | src/managers/nodemanager/nodecompilerglsl.cpp:88-104 | A Property output is a uniform iff it does not forward a connected sibling. |
| GlslBackend.UniformLinesSpec | src/managers/nodemanager/nodecompilerglsl.cpp:88-104 | Over distinct output ports there is exactly one `uniform <type> <uuid>;` line per uniform port. Every such line belongs to one. |
| GlslBackend.HeaderSpec | src/managers/nodemanager/nodecompilerglsl.cpp:81-106 | The header is the three preamble lines followed by exactly one declaration per uniform port of the graph. |
| GlslBackend.ArgName | src/managers/nodemanager/nodecompilerglsl.cpp:157-165 | An unconnected input with a sibling passes the sibling's identifier. A connected input, or one without a sibling, passes its own identifier. |
| GlslBackend.CallArgs | src/managers/nodemanager/nodecompilerglsl.cpp:155-165 | There is one argument per input port, in index order, and argument k is input k's forwarded name. |
| GlslBackend.CallLines | src/managers/nodemanager/nodecompilerglsl.cpp:167-189 | For a node other than the vertex node, line k is `<type> <uuid> = <NodeType>_<k>(<args>);` for the k-th ordinary output in index order. |
| GlslBackend.CallLinesLength | src/managers/nodemanager/nodecompilerglsl.cpp:170-189 | Outside a vertex node, every output port gets exactly one assignment line. |
| GlslBackend.CallLineAt | src/managers/nodemanager/nodecompilerglsl.cpp:180-187 | The k-th assignment line is `<type> <uuid> = <NodeType>_<k>(<args>);` for the k-th output port. |
| GlslBackend.VertexLines | src/managers/nodemanager/nodecompilerglsl.cpp:171-189 | The vertex node emits only the position alias, once for its position port. The counter still advances over its other outputs. |
| GlslBackend.ForwardLinesSpec | src/managers/nodemanager/nodecompilerglsl.cpp:192-207 | Every Property output whose sibling is connected gets the assignment from that sibling. Every assignment belongs to such an output. |
| GlslBackend.PropertyOutputDeclared | src/managers/nodemanager/nodecompilerglsl.cpp:88-206 | A Property output is declared either as a uniform in the header or by the forwarding assignment of its node's statement. |
| GlslBackend.FragmentNodes | src/managers/nodemanager/nodecompilerglsl.cpp:116-118 | Lists exactly the nodes of type FragmentNode, each once, in order. |
| GlslBackend.EndResult | src/managers/nodemanager/nodecompilerglsl.cpp:114-141 | End fails iff the fragment-node count is not 1. It then returns "expected exactly one fragment node but found N." and no lines. Otherwise the last line is the closing brace. |
| GlslBackend.EndResultColour | src/managers/nodemanager/nodecompilerglsl.cpp:125-138 | With one fragment node the end succeeds. It emits the colour assignment from the fragment input iff that input is connected, then the closing brace, and nothing else. |
| GlslBackend.OnlyEndFails | src/managers/nodemanager/nodecompilerglsl.cpp:81-225 | Every GLSL stage other than `end_program` returns the empty message. |
| GlslBackend.CompileFailure | src/managers/nodemanager/nodecompiler.h:82-118 | A GLSL compile fails iff the graph does not hold exactly one fragment node. It then fails with the message naming the count. |
| GlslBackend.CompileCode | src/managers/nodemanager/nodecompiler.h:115-117 | On success the code is every stage's lines joined with newlines. |
| GlslBackend.EndIsLast | src/managers/nodemanager/nodecompiler.h:97-111 | In a compile every stage before the program end succeeds, and the program end's result comes last. |
| GlslBackend.CompileLinesSplit | src/managers/nodemanager/nodecompiler.h:97-111 | The generated lines are the earlier stages' lines followed by the program end's lines. |
| GlslBackend.CompileStartsWithHeader | src/managers/nodemanager/nodecompiler.h:97 | The generated lines begin with the header. |
| GlslBackend.CompileEndsWithClose | src/managers/nodemanager/nodecompilerglsl.cpp:125-140 | With exactly one fragment node the generated lines end with `}`. |
| GlslBackend.CompileAssignsColour | src/managers/nodemanager/nodecompilerglsl.cpp:125-138 | With one fragment node the code is the earlier stages' lines, then the colour assignment if the fragment input is connected, then the closing brace. |
| GlslBackend.NodeCompilerGlsl.constructor | src/managers/nodemanager/nodecompilerglsl.h:11-13 | A new backend has no uniform ports and no last error. Its language is GLSL and it is not lazy. |
| GlslBackend.NodeCompilerGlsl.GenerateHeader | src/managers/nodemanager/nodecompilerglsl.cpp:81-106 | Appends the header lines. Afterwards the uniform set is exactly the graph's uniform ports, because it was cleared first. |
| GlslBackend.NodeCompilerGlsl.DeclareUniforms | src/managers/nodemanager/nodecompilerglsl.cpp:88-104 | The loop appends the uniform declarations of the given ports and records exactly those ports. |
| GlslBackend.NodeCompilerGlsl.CheckUniform | src/managers/nodemanager/nodecompilerglsl.cpp:90-98 | The three nested tests (Property flavour, output type, sibling missing or unconnected) accept a port iff it is a uniform. |
| GlslBackend.NodeCompilerGlsl.StartProgram | src/managers/nodemanager/nodecompilerglsl.cpp:108-112 | Appends `void main() {` and succeeds. |
| GlslBackend.NodeCompilerGlsl.EndProgram | src/managers/nodemanager/nodecompilerglsl.cpp:114-141 | Appends what `EndResult` specifies. On success the lines end with the closing brace, and the colour assignment sits just before it iff the fragment input is connected. |
| GlslBackend.NodeCompilerGlsl.CompileNode | src/managers/nodemanager/nodecompilerglsl.cpp:143-209 | Appends the node's call lines, then its forwarding lines, and succeeds. |
| GlslBackend.NodeCompilerGlsl.AssignOutputs | src/managers/nodemanager/nodecompilerglsl.cpp:170-189 | The counting loop over the sorted ordinary outputs appends exactly the lines `CallLines` and `VertexLines` describe. |
| GlslBackend.NodeCompilerGlsl.AssignOutput | src/managers/nodemanager/nodecompilerglsl.cpp:172-187 | One loop step emits the position line for the vertex position port, the call line for other nodes, nothing for other vertex ports. |
| GlslBackend.NodeCompilerGlsl.ForwardProperties | src/managers/nodemanager/nodecompilerglsl.cpp:196-206 | The loop appends exactly the forwarding assignments `ForwardLinesSpec` describes. |
| GlslBackend.NodeCompilerGlsl.CompileConnection | src/managers/nodemanager/nodecompilerglsl.cpp:211-219 | Appends `<type of input> <input uuid> = <output uuid>;` and succeeds. |
| GlslBackend.NodeCompilerGlsl.DefineNode | src/managers/nodemanager/nodecompilerglsl.cpp:221-225 | Appends the type's GLSL definition and succeeds. |
| GlslBackend.NodeCompilerGlsl.RunStage | src/managers/nodemanager/nodecompiler.h:97-111 | Dispatches a stage: a connection statement goes to `compile_connection`, a node statement to `compile_node`. Only the header changes the uniform set. |
| GlslBackend.NodeCompilerGlsl.RunStages | src/managers/nodemanager/nodecompiler.h:97-111 | Running the `CHECK` sequence yields exactly the collected outcome of the stages, and the header step leaves the uniform-port set filled. |
| GlslBackend.NodeCompilerGlsl.Compile | src/managers/nodemanager/nodecompiler.h:82-118 | The loop with its early return gives the outcome the pipeline specifies. It returns "" on failure and the joined code on success. The last error is set only on failure; a success keeps the previous one. |
| GlslBackend.NodeCompilerGlsl.Invalidate | src/managers/nodemanager/nodecompilerglsl.cpp:72-76 | The backend is not lazy, so invalidating recompiles at once, with the same outcome as `Compile`. |
| Ports.OutputPort.Connect | src/managers/nodemanager/port.cpp:121-124 | Inserts the input into the set, so repeating it changes nothing. |
| Ports.OutputPort.Disconnect | src/managers/nodemanager/port.cpp:116-119 | Erases the input from the set, so repeating it changes nothing. |
| Ports.InputPort.Connect | src/managers/nodemanager/port.cpp:37-48 | As written: connecting the attached output is a no-op without notification. Otherwise the port is attached and one topology change is announced. The old output forgets the input. Only when there was no old output does the new one learn it. Consistency is kept only when connecting from or to nothing. |
| Ports.InputPort.ConnectBothSides | src/managers/nodemanager/port.cpp:37-48 | Corrected connect: the same state change and notification, with both sides updated. It keeps the two-sided invariant in every case. |
| Ports.ConnectedSymmetric | src/managers/nodemanager/port.cpp:18-68 | `is_connected(other)` answers alike from both sides. A port is never connected to a port of its own type. |
| Ports.ConsistentConnections | src/managers/nodemanager/port.cpp:111-114 | In a consistent model an output is connected exactly to the inputs it lists. It is connected at all iff some input refers to it. |
| Ports.ReconnectLosesBackReference | src/managers/nodemanager/port.cpp:40-44 | Reconnecting an attached input to a second output as written leaves the second output without the input. |
| Settings.HeaderName | src/aspects/settingstree.cpp:104-105 | The group name is the text between the brackets of a `[name]` line. |
| Settings.FindGroup | src/aspects/settingstree.cpp:115-119 | Gives the position of the first group of that name, or nothing iff no group has it. |
| Settings.FindName | src/aspects/settingstree.cpp:115-138 | The `std::find_if` by name that both searches use: the position of the first entry of that name, or nothing iff no entry has it. |
| Settings.FindValue | src/aspects/settingstree.cpp:134-138 | Gives the position of the first value of that name, or nothing iff no value has it. |
| Settings.LoadLineSkips | src/aspects/settingstree.cpp:98-102 | A line that is blank or starts with `#` after trimming changes nothing. |
| Settings.LoadLineHeader | src/aspects/settingstree.cpp:104-105 | A header line only changes the active group. |
| Settings.LoadLineIgnored | src/aspects/settingstree.cpp:106-150 | A key line is ignored in two cases: no group is active, or it does not split on `:` into exactly two tokens. |
| Settings.LoadLineKey | src/aspects/settingstree.cpp:107-114 | A two-token line in an active group adds the trimmed name and value. |
| Settings.AddKeySpec | src/aspects/settingstree.cpp:115-147 | A duplicate name in the group is fatal. Otherwise the value is appended at the end of its group. An unknown group is appended only in insert mode; otherwise the key is ignored. |
| Settings.LoadLinesStopped | src/aspects/settingstree.cpp:140-144 | After a fatal line no later line is read. |
| Settings.LoadLinesWf | src/aspects/settingstree.cpp:83-153 | Loading keeps group names distinct and value names distinct within each group. |
| Settings.LoadLineGrows | src/aspects/settingstree.cpp:115-147 | A line never removes or reorders groups or values. Groups are only added in insert mode. |
| Settings.SettingsTree.ReadLine | src/aspects/settingstree.cpp:98-150 | One line of the loaded file updates the groups and the current group exactly as the line reader specifies, or fails with its message. |
| Settings.SettingsTree.LoadFromFile | src/aspects/settingstree.cpp:83-153 | A file that cannot be opened gives false and changes nothing. Otherwise the loop reads the lines as `LoadLines` specifies, with insert mode iff the tree was empty, and gives true or the fatal error. |
| Settings.SettingsTree.Group | src/aspects/settingstree.cpp:155-165 | Gives the first group with that name, or nothing iff no group has it. |
| Settings.RowCountOfGroup | src/aspects/settingstree.cpp:252-264 | In a well-formed tree a group's row count is its number of values. |
| Settings.SettingsTree.Store | src/aspects/settingstree.cpp:183-190 | Records every value under its group and name. |
| Settings.StoreGroupsLookup | src/aspects/settingstree.cpp:183-190 | After `store`, the snapshot holds every value of a well-formed tree under its group and name. |
| Settings.StoreValuesOther | src/aspects/settingstree.cpp:185-188 | Storing a group's values leaves every other snapshot entry unchanged. |
| Settings.StoreValuesHit | src/aspects/settingstree.cpp:185-188 | Storing a group with distinct names records each value under its name. |
| Settings.SettingsTree.Restore | src/aspects/settingstree.cpp:192-199 | Every value becomes what the snapshot holds for it, or "" if nothing. Reading through `operator[]` inserts missing entries, which read as "". |
| Settings.RestoreValues | src/aspects/settingstree.cpp:195-197 | The inner loop of restore yields the restored values and the touched snapshot. |
| Settings.TouchValuesStep | src/aspects/settingstree.cpp:195-197 | One inner step creates the stored entry if missing and gives the value the entry it read. |
| Settings.TouchGroupsLookup | src/aspects/settingstree.cpp:192-199 | The entries `restore` inserts do not change what the snapshot answers. |
| Settings.RestoredAfterTouch | src/aspects/settingstree.cpp:192-199 | Restoring a group is unaffected by the groups restored before it. |
| Settings.StoreThenRestore | src/aspects/settingstree.cpp:183-199 | `store` followed by `restore` leaves every value of a well-formed tree unchanged. |
| MainCli.ToIntOfIntToString | src/maincli.cpp:72-82 | The decimal text of every 32-bit integer reads back as that integer. |
| MainCli.ToIntRejects | src/maincli.cpp:72-82 | After trimming, text that is not a sign followed by digits does not read as an integer. |
| MainCli.ToIntSigned | src/maincli.cpp:72-82 | An optional minus followed by digits reads as the signed value whenever it fits 32 bits. |
| MainCli.GetInt | src/maincli.cpp:72-82 | Succeeds iff the value reads as an integer, giving that integer. Otherwise gives the program's error message. |
| MainCli.GetSize | src/maincli.cpp:84-99 | Succeeds iff the value splits on `x` into exactly two integer tokens, giving (width, height). Otherwise gives the message with all three markers filled. |
| MainCli.GetSizeAsWritten | src/maincli.cpp:84-99 | The same decision as `GetSize`, with the message as written. |
| MainCli.GetSizeOfTokens | src/maincli.cpp:84-99 | A value splitting into two integer tokens gives the size made of those two integers. |
| MainCli.SizeMessageAsWrittenLosesValue | src/maincli.cpp:93-96 | `100` is a single token: the code as written and the corrected reader both refuse it, each with its own message. |
| MainCli.SizeMessageAsWrittenText | src/maincli.cpp:95 | For `100` the message as written puts the value where the separator belongs and leaves `%2` and `%3` unfilled. |
| MainCli.SizeMessageIgnoresName | src/maincli.cpp:95 | The message as written is the same for every option name. The intended one tells options apart. |
| MainCli.GetSizeRoundTrip | src/maincli.cpp:84-98 | `<w>x<h>` reads back as (w, h). |
| MainCli.Require | src/maincli.cpp:143-152 | Succeeds iff the value is not empty. Otherwise gives "<name> must be specified.". |
| MainCli.InterpolateWithout | src/maincli.cpp:126-129 | A template without `#` is returned unchanged. |
| MainCli.InterpolateSpec | src/maincli.cpp:131-140 | Accepted iff every character from the first to the last `#` is `#`. Otherwise the contiguity error. When accepted, that span becomes the frame number zero-padded to the span's length (sign first), and the text around it is kept. |
| MainCli.PlaceholderSpan | src/maincli.cpp:126-132 | `indexOf` and `lastIndexOf` find the first and the last `#`. |
| MainCli.RunAll | src/maincli.cpp:132-133 | The placeholder count over a span equals its length iff every character of the span is the placeholder. |
| MainCli.FrameNumberReadsBack | src/maincli.cpp:138 | The padded frame number is at least as long as the run. It is the digits of the frame, behind a leading minus when the frame is negative (the zeros go after the sign), and it reads back as the frame. |
| MainCli.RenderFile | src/maincli.cpp:173-178 | A render succeeds only with its file name, and without `overwrite` only when no file of that name exists. A failed file name propagates. |
| MainCli.RenderNamesFiles | src/maincli.cpp:173-192 | On success there is one file per render, named by its template. Without `overwrite`, no two renders share a file and none overwrites an existing file. |
| MainCli.RenderAllFiles | src/maincli.cpp:186-192 | On success file k is the template filled with the frame reached after k advances. |
| MainCli.RenderNamesStopped | src/maincli.cpp:175-177 | After a failed render the program has exited, so later frames change nothing. |
| MainCli.RenderWithoutPlaceholder | src/maincli.cpp:173-192 | Without `#` and without `overwrite`, one render writes the template and a second one is refused. |
| MainCli.RenderSequence | src/maincli.cpp:186-192 | The loop renders the start frame and then `sequence-length` more, with the outcome `RenderAll` gives. |
| NumericEdit.StreamInt | src/widgets/numericedit.h:197-201 | `>>` into an int yields only 32-bit values. |
| NumericEdit.StreamSigned | src/widgets/numericedit.h:197-201 | An optional sign followed by digits streams into their signed value whenever it fits 32 bits. |
| NumericEdit.Parse | src/widgets/numericedit.h:190-212 | "inf" gives the largest int and "-inf" the smallest. A readable integer gives itself. Anything else gives 0 when 0 lies within the bounds, else the lower bound. |
| NumericEdit.ParseSigned | src/widgets/numericedit.h:190-203 | An optional minus followed by digits parses as its signed value whenever it fits 32 bits. |
| NumericEdit.ParseOfIntToString | src/widgets/numericedit.h:190-218 | The text shown for a value parses back as that value. |
| NumericEdit.ParseFallback | src/widgets/numericedit.h:204-209 | Unreadable text parses to a value within ordered bounds. |
| NumericEdit.Clamp | src/widgets/numericedit.h:182-186 | The result lies within the bounds. It is the value itself when that is within, else the bound it crossed. |
| NumericEdit.ReconcileBounds | src/widgets/numericedit.h:234-245 | The reported pair is ordered. Crossed bounds take the edited bound's value. |
| NumericEdit.NumericEdit.constructor | src/widgets/numericedit.h:41-53 | A new edit has the widest bounds and step 1. It shows the invalid value 0 and has notified nothing. |
| NumericEdit.NumericEdit.SetRange | src/widgets/numericedit.h:55-65 | Crossed bounds both become the lower one; otherwise both are set. Afterwards min ≤ max. |
| NumericEdit.NumericEdit.SetLower | src/widgets/numericedit.h:67-74 | A lower bound above the upper one is refused. The bounds stay ordered. |
| NumericEdit.NumericEdit.SetUpper | src/widgets/numericedit.h:76-83 | An upper bound below the lower one is refused. The bounds stay ordered. |
| NumericEdit.NumericEdit.SetStep | src/widgets/numericedit.h:85-89 | Requires a positive step and sets it. |
| NumericEdit.NumericEdit.SetValue | src/widgets/numericedit.h:93-105 | A different value is shown and reported once. The same value reports nothing and rewrites the text only when it is the invalid value. Afterwards the edit's value is the given one. |
| NumericEdit.NumericEdit.EditText | src/widgets/numericedit.h:47-50 | An edited text's parse is reported. |
| NumericEdit.NumericEdit.Increment | src/widgets/numericedit.h:176-188 | The new value is the old one moved by factor × step and clamped into the bounds, which stay valid. Through `set_value` a changed value is shown and reported once; an unchanged value reports nothing. |
| NumericEdit.OnBoundChanged | src/widgets/numericedit.h:229-247 | Reports the reconciled pair, which is ordered. Both edits then show it. |
| PropertyManager.KeyIntersection | src/managers/propertymanager/propertymanager.cpp:21-23 | An empty selection has no common keys. |
| PropertyManager.KeyIntersectionMember | src/managers/propertymanager/propertymanager.cpp:33-47 | A key survives iff the first entity has it and every other entity has it with the same property type. |
| PropertyManager.KeyIntersectionOrder | src/managers/propertymanager/propertymanager.cpp:26-48 | The result is the first entity's keys filtered, in their original order. |
| PropertyManager.SharedStep | src/managers/propertymanager/propertymanager.cpp:43-48 | One more `remove_if` pass narrows the shared keys by one more entity. |
| PropertyManager.KeepAllShared | src/managers/propertymanager/propertymanager.cpp:43-48 | The passes over all other entities compute the shared keys. |
| PropertyManager.SharedMember | src/managers/propertymanager/propertymanager.cpp:33-47 | A key is shared iff it is among the keys and every other entity has it with the same type. |
| PropertyManager.SharedNone | src/managers/propertymanager/propertymanager.cpp:26-50 | With one selected entity every key survives. |
| PropertyManager.RemoveMismatches | src/managers/propertymanager/propertymanager.cpp:44-47 | The `erase(remove_if(...))` pass keeps, in order, the keys the entity has with the same type. |
| PropertyManager.GetKeyIntersection | src/managers/propertymanager/propertymanager.cpp:18-51 | The loop computes the key intersection. |
| PropertyManager.SplitKey | src/managers/propertymanager/propertymanager.cpp:53-64 | Without `/`: an empty tab name and the whole key. Otherwise tab + "/" + name is the key, and the tab holds no `/`. |
| PropertyManager.SplitKeyRoundTrip | src/managers/propertymanager/propertymanager.cpp:53-64 | A tab name without `/` joined to any name splits back into the two. |
| PropertyManager.LabelsSpec | src/managers/propertymanager/propertymanager.cpp:125-128 | The tab labels are distinct, and a label appears iff some key carries it. |
| PropertyManager.TabKeysSpec | src/managers/propertymanager/propertymanager.cpp:122-130 | A key's properties are on the tab of its category and on no other. |
| PropertyManager.TabKeysUnlabelled | src/managers/propertymanager/propertymanager.cpp:122-130 | A category that no key carries has no keys. |
| PropertyManager.TabKeysOutside | src/managers/propertymanager/propertymanager.cpp:126-129 | Adding a key changes only its own category's tab, where it comes last. |
| PropertyManager.GroupByTab | src/managers/propertymanager/propertymanager.cpp:120-130 | The loop builds one tab per label, in order of first occurrence, each holding its keys. |
| PropertyManager.PropertyManager.Clear | src/managers/propertymanager/propertymanager.cpp:137-140 | Removes every tab. |
| PropertyManager.PropertyManager.SetSelection | src/managers/propertymanager/propertymanager.cpp:116-135 | The tabs are rebuilt from the key intersection: one tab per category, in order of first occurrence, each with its keys. |
| Actions.SelectAllSelects | src/mainwindow/actions.cpp:196-214 | After `select_all` every point is selected, and after `deselect_all` none is. The geometry stays the same. |
| Actions.SelectIdempotent | src/mainwindow/actions.cpp:196-214 | Selecting (or deselecting) all twice is the same as once. |
| Actions.InvertTwice | src/mainwindow/actions.cpp:216-224 | Inverting the selection twice gives the original points back. |
| Actions.ChangePath | src/mainwindow/actions.cpp:199-201 | The loop over a path's points changes every flag as `ChangePoints` says. |
| Actions.ChangeSelection | src/mainwindow/actions.cpp:196-224 | Every selected path gets its points changed, each path once. |
| Actions.Group | src/mainwindow/actions.cpp:141-157 | There are no ranges iff no point is selected. |
| Actions.GroupShape | src/mainwindow/actions.cpp:148-157 | Every range has length ≥ 1. The last range ends at the last selected point. |
| Actions.GroupExtend | src/mainwindow/actions.cpp:150-151 | A point contiguous with the previous selected one lengthens the last range, and the ranges then stand for one more point. |
| Actions.ExtendLast | src/mainwindow/actions.cpp:150-151 | Lengthening the last range by one adds the point right after it. |
| Actions.GroupOpen | src/mainwindow/actions.cpp:152-153 | A point that does not follow the last one opens a range of its own. |
| Actions.GroupExpands | src/mainwindow/actions.cpp:141-157 | The ranges stand for exactly the selected points, in order. |
| Actions.RangesCount | src/mainwindow/actions.cpp:148-157 | The range lengths sum to the number of selected points. |
| Actions.AddPoint | src/mainwindow/actions.cpp:149-156 | One selected point extends the last range or opens a new one, as `Group` specifies, and becomes the last point. |
| Actions.SegmentRanges | src/mainwindow/actions.cpp:148-157 | The loop over a segment continues the ranges of the points before it. |
| Actions.RangesOf | src/mainwindow/actions.cpp:139-157 | The loop over a path yields the grouping of its selected points. |
| Actions.RemoveSelectedPoints | src/mainwindow/actions.cpp:134-167 | One command per path with selected points. A macro is started iff some command is submitted. |
| Actions.RemoveCommandsSpec | src/mainwindow/actions.cpp:158-165 | Each command covers exactly its path's selected points, with ranges of length ≥ 1 summing to their number. A path without selected points gets no command. |
| Actions.ModifyTangents | src/mainwindow/actions.cpp:24-62 | The map holds a replacement for exactly the selected points: smoothened or nibbed by mode, none in Bezier mode. Commands are submitted iff the map is not empty. |
| Actions.ModifyPathTangents | src/mainwindow/actions.cpp:29-49 | The loops over one path add exactly its selected points' replacements. |
| Actions.ModifySegmentTangents | src/mainwindow/actions.cpp:31-47 | Visiting one segment adds exactly that segment's selected points, outside Bezier mode, each with its replacement. Entries already present stay. |
| Actions.TangentMapStep | src/mainwindow/actions.cpp:29-49 | Adding one path's replacements keeps the map exact. |
| Actions.TopLevel | src/mainwindow/actions.cpp:72-79 | The top-level convertibles are a subset of the convertibles. |
| Actions.TopLevelNonEmpty | src/mainwindow/actions.cpp:75-82 | A non-empty set of convertibles has a top-level one, so every round converts something. |
| Actions.ConvertRoundsWithin | src/mainwindow/actions.cpp:64-124 | Only convertibles are converted. |
| Actions.ConvertRoundsCover | src/mainwindow/actions.cpp:64-124 | Every convertible is converted. |
| Actions.ConvertRoundsDisjoint | src/mainwindow/actions.cpp:64-124 | No object is converted twice. |
| Actions.ConvertRoundsParentsFirst | src/mainwindow/actions.cpp:68-79 | No object is converted before or together with a convertible ancestor, so the children of a converted object do not change. |
| Clones.ModeKeysComplete | src/objects/cloner.cpp:224-228 | The visibility loop covers every mode-controlled property. |
| Clones.CountKeyVisible | src/objects/cloner.cpp:229-288 | The count is read from a property the mode shows. COUNT is shown iff the mode is not Grid, and COUNT_2D iff it is Grid. |
| Clones.GridCell | src/objects/cloner.cpp:353-354 | Clone i's column is below the column count, and row × columns + column = i. |
| Clones.GridCellInside | src/objects/cloner.cpp:348-356 | In a columns × rows grid every clone's row is below the row count. |
| Clones.GridCellsDistinct | src/objects/cloner.cpp:348-356 | Different clones get different cells. |
| Clones.GridCellReached | src/objects/cloner.cpp:348-356 | Every cell of the grid is the cell of exactly the clone at its row-major index. |
| Clones.NumberedInjective | src/objects/cloner.cpp:264 | Names `<name> <i>` of different clones differ, whatever the clones' own names. |
| Clones.EveryChildCopied | src/objects/cloner.cpp:314-320 | With at least as many clones as children, every child is copied. |
| Clones.GetT | src/objects/cloner.cpp:325-338 | The parameter is 0 iff there are at most one step. |
| Clones.GetTEnds | src/objects/cloner.cpp:332-336 | With two or more steps the first clone is at the start. When inclusive, the last clone is at the end. |
| Clones.Cloner.constructor | src/objects/cloner.cpp:39-125 | Linear mode, COUNT 3, COUNT_2D 3 × 3, an empty path reference and Linear's visibility. An active cloner hides its children. |
| Clones.Cloner.UpdatePropertyVisibility | src/objects/cloner.cpp:222-246 | Every mode-controlled property is visible iff the mode's set contains it. |
| Clones.Cloner.CopyChildren | src/objects/cloner.cpp:310-323 | There are no clones without children or for count 0. Otherwise there are exactly `count` clones, and clone i copies child i mod n. |
| Clones.Placed | src/objects/cloner.cpp:366-397 | A clone stays unplaced exactly when the mode is Path or FillRandom and PATH_REFERENCE refers to no object: `set_path` and `set_fillrandom` then return without moving it. |
| Clones.Cloner.MakeClones | src/objects/cloner.cpp:272-308 | The clones of `copy_children(count())`: Grid uses count2d.x × count2d.y, other modes COUNT. Each clone is placed by its mode: grid clone i at column i mod x and row i div x. In Path and FillRandom mode, clones are placed only while the path reference refers to an object. |
| Clones.Cloner.PlaceClone | src/objects/cloner.cpp:295-302 | The mode switch places clone i exactly as the placement function for that mode says. |
| Clones.Cloner.Update | src/objects/cloner.cpp:171-184 | Active: fresh clones and hidden children. Inactive: no clones and drawn children. |
| Clones.Cloner.SetMode | src/objects/cloner.cpp:202-204 | A mode change updates the visibility to the new mode, then updates the clones. |
| Clones.Cloner.SetPathReference | src/objects/cloner.cpp:186-201 | A change of PATH_REFERENCE records whether it now refers to an object, then makes the clones again with that reference. |
| Clones.Cloner.ConvertNames | src/objects/cloner.cpp:261-267 | Adopted clone i is named `<its name> i`, and all names differ. |
| TypedProperties.TypedProperty.constructor | src/properties/typedproperty.h:23-24 | The given default is both the value and the default. |
| TypedProperties.TypedProperty.SetValue | src/properties/typedproperty.h:28-36 | The value becomes the given one. Observers are told once iff it differed. |
| TypedProperties.TypedProperty.SetDefaultValue | src/properties/typedproperty.h:39 | Only the default changes. |
| TypedProperties.TypedProperty.Reset | src/properties/typedproperty.h:41 | The value becomes the default, and no observer is told. |
| TypedProperties.SetTwice | src/properties/typedproperty.h:28-36 | Setting the same value twice tells the observers at most once. |
| TypedProperties.ResetAfterChange | src/properties/typedproperty.h:23-41 | After construct, set and reset, the value is the default again. Observers were told once iff the set changed it. |
| MaybeOwners.MaybeOwner.Own | src/maybeowner.h:15 | A handle made from an owning pointer owns the object and refers to it. |
| MaybeOwners.MaybeOwner.Borrow | src/maybeowner.h:16 | A handle made from a reference refers to the object without owning it. |
| MaybeOwners.MaybeOwner.Release | src/maybeowner.h:20 | Requires ownership. Hands out the owned object, which is the referred one, and no longer owns. |
| MaybeOwners.MaybeOwner.CaptureByCopy | src/maybeowner.h:24-29 | The handle owns a fresh clone with the same contents and refers to it. |
| MaybeOwners.MaybeOwner.Capture | src/maybeowner.h:31-38 | Requires no ownership and the referred object. The handle then owns it and returns it. |

## Left out

- The Python backend (`nodecompilerpython`): only the GLSL backend's stages have bodies here.
- `generate_statements`: the used node types and the statement list are inputs of `Compile`, because their construction is not part of this model.
- `AbstractNodeCompiler::invalidate`, which `invalidate` calls before recompiling, is not part of this model.
- The `compilation_error` and `compilation_succeeded` signals are represented by the `Outcome` that `Compile` returns.
- The debug `assert` of `compile_connection` (the source's data type is valid) is not modelled. A statement only needs its port ids to exist.
- Text.IsQtSpace: the whitespace of `QString::trimmed` (used by `ToInt`, the settings loader and the split tokens) covers ASCII whitespace, U+0085 and U+00A0 only. Other Unicode spaces that Qt also trims (U+1680, U+2000 to U+200A, U+2028, U+2029, U+202F, U+205F, U+3000) are not modelled.
- Text.StrLess: compares whole code points, while `QString`'s `operator<` compares UTF-16 code units. The two orders differ only for strings with a character above U+FFFF, whose surrogates sort below U+E000 to U+FFFF.
- NodeGraph.SortByIndex: a stable insertion sort. `std::sort` is not stable, so the source leaves the order of ports with equal indices open; the model keeps their original order.
- `QString::arg` chains are plain concatenation. Labels, type names and identifiers are taken to hold no `%N` markers.
- Node type names:
  - `VertexNode::TYPE` and `FragmentNode::TYPE` are taken to be "VertexNode" and "FragmentNode".
  - Other node types are known only by their names.
- The address part of a port identifier is an abstract string per port. How a pointer prints is not modelled.
- The enumeration order of the node model's and a node's port and node containers is the order of `Graph.ports` and `Graph.nodes`.
- `OffscreenRenderer::vertex_position_name` is a parameter. The per-language node definitions (`Node::detail`) are a map from type name to text.
- GlslBackend.CompileValid: requires every used node type to have a GLSL definition. `define_node`'s `definitions.at(language)` throws `std::out_of_range` for a type without one, and that error path is not modelled.
- Settings tree:
  - File access is abstracted: a file is an optional sequence of lines.
  - `\w` in the group pattern is taken as ASCII letters, digits and `_`.
  - `save_to_file` and `load_from_qsettings` are not part of this model.
  - The tree is modelled on values, so item identity and the Qt model signals are not captured.
- NumericEdit:
  - It is modelled with `int` only, with the display multiplier fixed at 1.
  - `increment`'s double arithmetic is int arithmetic. This agrees with it for int values, because the clamped result is an int.
  - Mouse and wheel handling is not modelled; it only calls `increment`.
- MainCli:
  - The animator's `advance` is a function parameter, and the set of existing files is a parameter.
  - Rendering and saving the image and `find_view` are not part of this model.
- Actions:
  - Point geometry, `Path::smoothen_point` and `nibbed` are left abstract: the map records which replacement a point gets.
  - The application, scene, undo stack and command objects are reduced to the commands' contents and whether a macro starts.
  - `convert_objects`:
    - The object tree is a parent map with depths.
    - The filter on the Convertible flag is not modelled; the convertibles are given.
    - The conversion itself and its scene commands are not modelled, only which objects each round converts.
  - `subdivide` has no body in the source.
- Cloner:
  - The floating-point placements (linear distance, radial angle, path position, random fill), `apply_border`, `set_by_script` and the random generator are not modelled. A clone records its placement by kind and index, or that it was left where its child was.
  - `Object::update`, the scene's message box and `is_active` are not modelled; activity is a parameter.
- Clones.CloneCount: the int overflow of count2d.x × count2d.y is not modelled. The counts are naturals, following the properties' 0-to-max range.
- Clones.Cloner.MakeClones: the path reference is reduced to whether it refers to an object. `set_path` casts it to an object and `set_fillrandom` asserts that it is one, so a reference to some other kind of owner is not modelled. The rejection sampling inside `set_fillrandom` is also not modelled.
- Clones.GetT: computed over reals rather than doubles, so rounding is not modelled.
- TypedProperties:
  - TypedProperties.TypedProperty.constructor: the default argument `ValueT()` is not modelled, because Dafny has no default value for an arbitrary `T`. Callers always pass the default.
  - The Python accessors and `type()` are not modelled.
  - Observers are counted as notifications.
- MaybeOwners:
  - The move constructor, move assignment and `operator->` are not modelled.
  - `get()` and the conversion to a reference are the `ref` field.
  - The handled type is represented by `Item`.
- PropertyManager:
  - The selection is a sequence, first entity first: the source takes the first element of an unordered set.
  - A key's tab label is its category on the first entity of the selection sequence. The source reads the category of the first property in a `std::set` of property pointers (propertymanager.cpp:81), so which one it reads follows pointer order. The two agree whenever the selected entities give the key one category; otherwise the source logs a warning and the model keeps its own fixed choice.
  - The widgets themselves are not modelled: tabs are labels with key lists.
- Ports: the port objects' node, flavour and index are not modelled here. The node graph carries them for the compiler.

## Findings

| source | as written | input that shows it | evidently intended | confidence | as-written member | corrected member |
|---|---|---|---|---|---|---|
| src/managers/nodemanager/port.cpp:40-44 | When the input already has an output and is connected to a different non-null output, only the old output forgets the input (`else if`). The new output is never told. | Connect input i to output A, then to output B. Afterwards i refers to B, but i is not in B's connections, so B reports itself unconnected. | Release the old output and register with the new one independently. | high; not executed | Ports.InputPort.Connect, Ports.ReconnectLosesBackReference | Ports.InputPort.ConnectBothSides |
| src/maincli.cpp:95 | The message has markers `%1`, `%2` and `%3`, but only one `.arg(value)` is applied. The value fills `%1`, and `%2` and `%3` stay in the text. | `--resolution 100` logs "Expected two integers, separated by '100' for '%2', but got '%3'." | Fill the separator, the option name and the value. | high; not executed | MainCli.GetSizeAsWritten, MainCli.SizeMessageAsWrittenLosesValue, MainCli.SizeMessageAsWrittenText | MainCli.GetSize |
