# A verified model of c-logging

c-logging lets a C program log messages together with a *log context*: a tree of named, typed
properties. This project models, in Dafny, what happens to that tree from the moment a context is
created to the moment a reader sees it, and proves that nothing is lost or mixed up on the way:

* contexts are built by macros that count, then fill, an array of property/value pairs and a packed
  area of value bytes, inheriting the parent's pairs one index and one byte further along;
* a recursive printer turns the pairs into text in a buffer that may be too small;
* an encoder turns the same pairs into a self-described ETW event, metadata and data descriptors;
* sinks compose header, context and message into one line;
* the logger counts initializations and rolls back when a sink fails;
* the stack-trace code writes frames into a caller's buffer, computes an address mask and collects a
  symbol search path.

Everything starts from two definitions. `CText.Put` says what memory looks like after text has been
printed into a window that may be too small; printing in pieces, each where the last one stopped, is
printing once (`PutPut`), and every theorem about truncated text rests on that law.
`PropertyForest.Forest` is the tree, `Flatten` its pair array; an array has at most one reading
(`ParseSound`, `ParseComplete`). `Pipeline` puts the parts together: for every chain of context
creations, the printer and the sinks print, and the decoder of the event rebuilds, the tree the chain
stands for.

| file | contents |
|---|---|
| `CText.dfy` | bytes, C strings, clipped writes, `snprintf` and `wcstombs` by contract |
| `PropertyForest.dfy` | property trees, pair arrays, rendering |
| `ValueText.dfy`, `TextReader.dfy` | what printed values and printed trees say when they are read back |
| `PropertyPrinter.dfy` | the text printer |
| `ContextLayout.dfy`, `LogContext.dfy` | contexts: layout, and the code that builds them in memory |
| `EtwEvent.dfy`, `EtwDecoder.dfy` | the event encoder, and a decoder written from the quoted wire format |
| `LineSinks.dfy` | callback and console sinks |
| `Logger.dfy` | logger life cycle and ETW sink registration |
| `ThreadStack.dfy`, `SearchPath.dfy` | stack text, address mask, symbol search path |
| `Pipeline.dfy` | whole-system results |

`snprintf` and `vsnprintf` follow sections 7.21.6.5 and 7.21.6.12 of ISO/IEC 9899:2011, `wcstombs`
section 7.22.8.2. How a formatting call turns out is a parameter everywhere, so the theorems quantify
over all failures; a failing call may leave anything in its window. A wide string that fills the
buffer leaves no terminator, so printed characters carry a mark (`Cell.wide`), and the text theorems
say exactly when the terminator is missing. Type bytes are those of the Windows SDK's
`TraceLoggingProvider.h`, which is not part of this model; the decoder relies only on their being
distinct, with the high bit set for structs alone.

Where the code does not do what its documentation promises or a caller would expect, the model follows
the code:

* a failing property name is not always reported: `UnreportedFailure` gives an input,
  `NegativeIffReported` the exact condition, `FailuresAreReported` the case where no name fails;
* a child of an overflowed local context announces one field too many, and from 256 fields on the
  count byte wraps: `UnsoundContexts` gives inputs, `ReadsAsTreeIff` the exact condition,
  `OrphanIsUnreadable` and `WrappedCountMisreads` what a consumer finds instead;
* the ETW sink cuts the pair count to 16 bits: `CastBreaksTree` gives an input, `AllOrNothingIff` the
  exact condition;
* a sink given a context reports an error instead of a truncated line when the header alone fills the
  buffer or the context is empty: `ErrorIff`;
* the symbol search path loses its terminator when a directory does not fit: `LostTerminator` gives
  an input, `PathStringIff` the exact condition over runs;
* changing the sinks of an initialized logger, or 2^32 outstanding initializations, unbalance the
  sinks: `ExchangedSinks` and `ForgottenUsers` give runs, `RunsBalancedIff` the exact condition;
* `get_thread_stack` returns before its final terminator when the thread cannot be resumed:
  `FilledStack` gives an input, `WriteStack` the exact condition after a good call, `NoiseDecides`
  why there is none after a failing one;
* `log_context_property_to_string` returns -1 for an empty buffer where
  v2/devdoc/log_context_property_to_string_requirements.md promises 0, and prints no commas between
  fields, which the examples in that document show.

## Model

| member | source | states |
|---|---|---|
| `CText.PutPut` | v2/src/log_context_property_to_string.c:15-19 | printing twice through a moving cursor and shrinking size leaves the same memory as printing the concatenation once |
| `CText.PutReads` | v2/src/log_context_property_to_string.c:119-122 | a clipped window reads back as the longest prefix that leaves room for the terminator, if and only if the cut is not on a wide character |
| `CText.Snprintf` | v2/src/log_context_property_type_ascii_char_ptr.c:36 | by the C standard: full length returned, clipped text and terminator in the window, or failure with the window unspecified |
| `CText.Wcstombs` | v2/src/log_context_property_type_wchar_t_ptr.c:37 | by the C standard: at most the window is filled, and a full window has no terminator |
| `PropertyForest.ParseComplete` | v2/src/log_context_property_to_string.c:26-32 | reading n logical fields of a forest's array gives back the forest and the index after it |
| `PropertyForest.ParseSound` | v2/src/log_context_property_to_string.c:26-32 | an array has a reading only if it is the array of a forest with that many siblings |
| `PropertyForest.FlattenInjective` | v2/src/log_context_property_to_string.c:26-32 | two proper forests with the same pair array and number of siblings are equal |
| `PropertyForest.LaidOutIff` | v2/src/log_context_property_to_string.c:52-65 | a consumer can walk the array as a forest if and only if the forest is proper and its flattening stands there |
| `PropertyForest.StandsAtIff` | v2/src/log_context_property_to_string.c:52-65 | standing in the array at an index is being the slice at that index |
| `PropertyForest.RenderHasNoNul` | v2/src/log_context_property_to_string.c:38-98 | the text of a forest contains no terminator |
| `TextReader.TextRoundTrip` | v2/src/log_context_property_to_string.c:38-98 | where names and values contain no space, equals sign or brace, the text of a forest, split into words and read back, gives its names, the texts of its values and its nesting |
| `ValueTexts.IntegerTextReads` | v2/src/log_context_property_basic_types.c:60 | the text of an integer value, read as an optional minus sign and digits, is the number in its type's range whose two's complement bytes are the value |
| `ValueTexts.IntegerRoundTrip` | v2/src/log_context_property_basic_types.c:220-227 | every number in the range of an integer type is stored in as many bytes as the type has and comes back from its text |
| `ValueTexts.BoolTextReads` | v2/src/log_context_property_bool_type.c:30 | a bool prints true if and only if its byte is not zero, false if and only if it is |
| `ValueTexts.StringTextReads` | v2/src/log_context_property_type_ascii_char_ptr.c:36 | a string prints the bytes before its terminator |
| `ValueTexts.WideTextReads` | v2/src/log_context_property_type_wchar_t_ptr.c:37 | a wide string prints one character per unit before its terminator, the byte of a one-byte unit |
| `PropertyPrinter.ToString` | v2/src/log_context_property_to_string.c:98-109 | clipped return value and clipped memory are those of the value's text, for snprintf- and wcstombs-backed types alike |
| `PropertyPrinter.PrintLeaf` | v2/src/log_context_property_to_string.c:86-111 | one pass of the loop at a leaf, for any outcome of the two calls, including the failing name that does not leave the loop |
| `PropertyPrinter.PrintStruct` | v2/src/log_context_property_to_string.c:35-85 | one pass at a struct: brace, fields, brace; every failure leaves the loop; reports the exact number of pairs of the fields |
| `PropertyPrinter.PrintFields` | v2/src/log_context_property_to_string.c:50-85 | the nested call with the count byte and the closing brace, through one moving cursor |
| `PropertyPrinter.PrintClose` | v2/src/log_context_property_to_string.c:67-82 | the closing brace and its cursor update |
| `PropertyPrinter.PrintProperty` | v2/src/log_context_property_to_string.c:33-111 | one pass of the loop turns the outcome for the siblings into the outcome for the remaining siblings |
| `PropertyPrinter.LogNProperties` | v2/src/log_context_property_to_string.c:21-123 | for every forest and every pattern of failures, memory and return value are those of the tree semantics `Run`; terminates, stays inside the pair array, and reports exactly the pairs of its n logical fields |
| `PropertyPrinter.LogContextPropertyToString` | v2/src/log_context_property_to_string.c:125-148 | -1 for NULL, size 0 or no pairs; otherwise the outcome for the whole forest; nothing outside the window is written |
| `PropertyPrinter.CleanRun` | v2/src/log_context_property_to_string.c:21-123 | without failures the recursion's many clipped writes are one clipped write of the rendered forest, and the value returned is its clipped length |
| `PropertyPrinter.RunFrame` | v2/src/log_context_property_to_string.c:13-19 | whatever fails, memory outside the window is untouched |
| `PropertyPrinter.PrinterTruncates` | v2/src/log_context_property_to_string.c:119-122 | for every forest and size: bytes used, the exact prefix, and the terminator if and only if the cut is not inside a wide value |
| `PropertyPrinter.NegativeIffReported` | v2/src/log_context_property_to_string.c:38-105 | the result is negative if and only if a failure is one that is reported: a brace, a value, anything in a struct, or a name after which nothing is printed at its level - a condition on lengths, room and failing calls alone; otherwise the result is the length those determine |
| `PropertyPrinter.FailuresAreReported` | v2/src/log_context_property_to_string.c:38-105 | if no name fails, the result is negative exactly when some call at any depth fails |
| `PropertyPrinter.UnreportedFailure` | v2/src/log_context_property_to_string.c:89-93 | an input where a name fails, the printer returns 3, and only the second property is there |
| `ContextLayout.SpanOfValue` | v2/src/log_context_property_type_ascii_char_ptr.c:58-61 | a copy moves exactly the value, whatever bytes follow it |
| `ContextLayout.StringSpanStops` | v2/src/log_context_property_type_wchar_t_ptr.c:59-62 | strcpy and wcscpy stop right after the terminator |
| `ContextLayout.FixedPropertyAcceptable` | v2/src/log_context_property_basic_types.c:197-209 | a fixed-size property has the same length in both passes exactly when its value has its type's size |
| `ContextLayout.StringPropertyAcceptable` | v2/src/log_context_property_type_ascii_char_ptr.c:119-133 | a formatted string takes the reserved bytes exactly when both expansions have the same length |
| `ContextLayout.WidePropertyAcceptable` | v2/src/log_context_property_type_wchar_t_ptr.c:120-137 | the same for wide strings |
| `ContextLayout.LayoutTiles` | v2/inc/c_logging/log_context.h:202-246 | count byte, shifted parent values and own values fill the data area from 0 to values_data_length without gap or overlap |
| `ContextLayout.TilesApart` | v2/inc/c_logging/log_context.h:202-246 | any two reserved spans are disjoint, in order and within the data area |
| `ContextLayout.LayoutRoomy` | v2/inc/c_logging/log_context.h:111-151 | every value, inherited or own, is complete and fits its reservation |
| `ContextLayout.ContextIsTree` | v2/inc/c_logging/log_context.h:202-273 | any chain of CREATE and LOCAL_DEFINE from NULL or non-empty parents holds the flattening of Node(name, parent's tree followed by own leaves) |
| `ContextLayout.ReadsAsTreeIff` | v2/inc/c_logging/log_context.h:214-263 | whatever the chain, a consumer finds the intended tree if and only if it asks for one field and no context that was copied in has an overflowed parent or is given more than 255 fields |
| `ContextLayout.OrphanIsUnreadable` | v2/inc/c_logging/log_context.h:214-237 | a child of an overflowed local context, given fewer than 255 properties, is no forest's array |
| `ContextLayout.OrphanIff` | v2/inc/c_logging/log_context.h:237 | the stored count exceeds the fields there are in exactly that case |
| `ContextLayout.WrappedCountMisreads` | v2/inc/c_logging/log_context.h:263 | in every other case the pairs are those of a tree whose context holds the first n mod 256 of its n given fields and has the others as siblings: the intended tree if and only if n is below 256 |
| `ContextLayout.ViewCounts` | v2/inc/c_logging/log_context.h:237-263 | in every context, readable or not, no struct announces more fields than the context has pairs |
| `ContextLayout.UnsoundContexts` | v2/inc/c_logging/log_context.h:216-237 | 64 properties overflow a local context and orphan its child; 256 properties on the heap wrap the count to 0 |
| `ContextLayout.Inherited` | v2/src/log_context.c:64-75 | after n stored generations a pair is n indices and n bytes further, with the same name, type, value and reservation |
| `LogContexts.StoreKeeps` | v2/src/log_context.c:64-75 | writing one pair within its reservation leaves every other pair and value in place |
| `LogContexts.StorePair` | v2/inc/c_logging/log_context.h:111-151 | sets a pair and its value and disturbs no other |
| `LogContexts.CopyPair` | v2/src/log_context.c:66-70 | copies one pair to the next index and its value to the next byte, reading the source up to where the type's copy stops |
| `LogContexts.InitFromParent` | v2/src/log_context.c:56-92 | all parent pairs and values are in place, shifted by one |
| `LogContexts.SetupProperties` | v2/inc/c_logging/log_context.h:107-154 | the filling pass puts every own property in place and its cursor ends where the counting pass said |
| `LogContexts.FillContext` | v2/inc/c_logging/log_context.h:228-246 | parent's pairs, struct entry and own properties are all in place; the data cursor ends at values_data_length |
| `LogContexts.Create` | v2/inc/c_logging/log_context.h:252-273 | NULL exactly when allocation fails, else a new context with the parent's pairs + 1 + its properties and the bytes of all of them: the struct entry with its count, every parent pair one index and one byte further with the same value, and every property; the parent is unchanged |
| `LogContexts.LocalDefine` | v2/inc/c_logging/log_context.h:202-246 | the same content if at most 64 pairs and 4096 bytes are needed, else no pairs and no data |
| `ContextLayout.FittingChainIsStored` | v2/inc/c_logging/log_context.h:202-273 | if every allocation succeeds and every local context stays within 64 pairs and 4096 bytes, all generations are in the context and in its tree |
| `ContextLayout.FittingChainIsSound` | v2/inc/c_logging/log_context.h:237-263 | such a chain is read as that tree if and only if no context is given more than 255 fields |
| `LogContexts.Build` | v2/src/log_context.c:94-117 | any chain of creations, run from NULL, ends in a context that represents it |
| `LogContexts.ReadPairs` | v2/src/log_context.c:14-49 | the accessors: NULL has no pairs; otherwise names, types and values read back are those of the layout |
| `EtwEvent.AddField` | v2/src/log_sink_etw.c:268-370 | a property's metadata is written if and only if its type is known and it fits the 4096 bytes; earlier bytes stay |
| `EtwEvent.AddFields` | v2/src/log_sink_etw.c:263-377 | all properties are written, in order, if and only if all are known and together they fit |
| `EtwEvent.WriteMetadata` | v2/src/log_sink_etw.c:230-390 | event name and four fixed fields, followed by all properties or none |
| `EtwEvent.PlaceMessage` | v2/src/log_sink_etw.c:392-435 | the message stands terminated right behind the metadata; properties are given up exactly when it does not fit with them |
| `EtwEvent.Compose` | v2/src/log_sink_etw.c:392-445 | metadata and message the event is made of: all properties with the whole message, or none with the prefix that fits |
| `EtwEvent.BuildDescriptors` | v2/src/log_sink_etw.c:470-550 | one descriptor per fixed field and per non-struct property, in order, within the 70 slots |
| `EtwEvent.AddDescriptors` | v2/src/log_sink_etw.c:488-550 | the loop over the properties adds their payloads behind the fixed descriptors and stays inside the array |
| `EtwEvent.Emit` | v2/src/log_sink_etw.c:212-560 | nothing on a disabled level or a failed format; otherwise the event with all properties and the whole message, or with none and the message's longest prefix that fits |
| `EtwEvent.LogEtw` | v2/src/log_sink_etw.c:638-702 | the sink's log function: NULL format, 16-bit pair count, and for each log level its event name and trace level |
| `EtwDecoder.DecodeEncode` | v2/src/log_sink_etw.c:89-99 | metadata decodes to the names, types and field counts it was made from |
| `EtwDecoder.ReadPayloads` | v2/src/log_sink_etw.c:136-157 | the data laid end to end is read field by field: each leaf takes exactly its own descriptor's bytes, a bool four of them |
| `EtwDecoder.EventDecodes` | v2/src/log_sink_etw.c:77-157 | every emitted event decodes to its name, the four fixed fields, and all properties with the whole message or none with the fitting prefix |
| `EtwDecoder.DescriptorsFit` | v2/src/log_sink_etw.c:470-554 | 6 descriptors plus the number of non-struct properties kept, at most 70; metadata and message together within 4096 bytes |
| `EtwDecoder.DescriptorOf` | v2/src/log_sink_etw.c:488-550 | a non-struct property with k such properties before it has payload descriptor k, which holds its value byte for byte, or 0 or 1 in 32 bits for a bool, and is as wide as the decoder reads for its type |
| `EtwDecoder.PayloadAt` | v2/src/log_sink_etw.c:488-550 | payloads are in the order of the non-struct pairs |
| `EtwDecoder.KeptIff` | v2/src/log_sink_etw.c:261-435 | properties are kept if and only if there are at most 64, all of known types, whose names with 2 bytes each and one more per struct fit into 4096 bytes with the fixed fields and the terminated message |
| `EtwDecoder.CountsStaySmall` | v2/src/log_sink_etw.c:118-125 | up to 64 pairs no field count reaches the extension bit |
| `EtwDecoder.ForestDecodes` | v2/src/log_sink_etw.c:118-125 | when properties are kept the decoder finds content, file, func and line as they were given and rebuilds, leaf by leaf and with the same values, the forest the text printer walks |
| `EtwDecoder.AllOrNothingIff` | v2/src/log_sink_etw.c:658 | an event carries all properties or none if and only if there are fewer than 65536 pairs, a multiple of 65536, or the part that is seen is not kept |
| `EtwDecoder.CastBreaksTree` | v2/src/log_sink_etw.c:658 | contexts nested 65537 deep are emitted as a struct without its field, which no forest has |
| `LineSinks.BuildLine` | v2/src/log_sink_callback.c:89-163 | header, context, space and message through one moving cursor, for any failures |
| `LineSinks.AddMessage` | v2/src/log_sink_callback.c:143-162 | a space and the clipped message, or nothing when at most one byte is left; a failing format is an error |
| `LineSinks.ErrorIff` | v2/src/log_sink_callback.c:121-141 | without encoding errors a sink reports an error if and only if a given context is empty or the header fills the buffer |
| `LineSinks.ErrorExactly` | v2/src/log_sink_callback.c:108-172 | for any failures, a sink reports an error if and only if the header fails, the context is empty, has no room or reports a failure, or the message has room and fails |
| `LineSinks.LineIsClipped` | v2/src/log_sink_callback.c:113-162 | otherwise the buffer is one clipped write of the whole line, exact-fit cases included |
| `LineSinks.LineReads` | v2/src/log_sink_callback.c:89-172 | the line reads as the first 4095 characters of header, context, space and message, terminated unless character 4096 is wide |
| `LineSinks.MakeLine` | v2/src/log_sink_console.c:67-144 | the same for the local buffer of either sink |
| `LineSinks.CallbackSink.SetCallback` | v2/src/log_sink_callback.c:47-65 | stores callback and context, or fails on NULL and changes nothing |
| `LineSinks.CallbackSink.SetMaxLevel` | v2/src/log_sink_callback.c:67-71 | stores the level |
| `LineSinks.CallbackSink.Log` | v2/src/log_sink_callback.c:73-176 | at most one call, none exactly for a line above the maximum level; with the stored callback and context; at its own level if it is a line, as critical if it is an error |
| `LineSinks.ConsoleLog` | v2/src/log_sink_console.c:56-157 | the same line assembly, for the console |
| `Loggers.Logger.DoInit` | v2/src/logger.c:30-103 | counted, all sinks or none: the first failing sink has every earlier one deinitialized |
| `Loggers.Logger.DeinitFirst` | v2/src/logger.c:78-81 | deinitializes the first n sinks in order |
| `Loggers.Logger.DoDeinit` | v2/src/logger.c:105-139 | decrements, and on zero deinitializes every sink |
| `Loggers.Logger.DoLog` | v2/src/logger.c:156-181 | aborts if not initialized, else logs to every sink in order |
| `Loggers.LogCallsEverySink` | v2/src/logger.c:156-217 | logging adds one log call per sink in the order of the sinks and changes nothing else; without initialization it aborts and calls none |
| `Loggers.EveryMessageArrives` | v2/src/logger.c:156-217 | over every run a sink is called to log once for each of its slots in each request that is served |
| `Loggers.InitCallsInOrder` | v2/src/logger.c:66-94 | an init calls the sinks in order up to the first that fails and then deinitializes those before it in order |
| `Loggers.DeinitCallsInOrder` | v2/src/logger.c:122-134 | the last deinit calls every sink in order, any other none |
| `Loggers.Logger.Serve` | v2/src/logger.c:141-217 | any request, logging with a given configuration and setting one included |
| `Loggers.StepKeepsBalance` | v2/src/logger.c:62-94 | every allowed request keeps each sink's inits minus deinits at its number of slots while initialized and at 0 otherwise, and the counter at the outstanding inits |
| `Loggers.RunsAreBalanced` | v2/src/logger.c:27-139 | the same over every run; initialized exactly while successful inits outnumber effective deinits |
| `Loggers.RunsBalancedIff` | v2/src/logger.c:27-154 | the books are right after every prefix of a run if and only if the sink set keeps its members while in use and no deinit leaves a positive multiple of 2^32 users |
| `Loggers.SetConfigKeepsIff` | v2/src/logger.c:149-154 | another sink set keeps the balance of an initialized logger if and only if it has the same sinks |
| `Loggers.ExchangedSinks` | v2/src/logger.c:149-154 | a run that exchanges the sinks of an initialized logger and leaves one initialized for good |
| `Loggers.DeinitIsEarlyIff` | v2/src/logger.c:122 | the logger shuts down under remaining users if and only if their number is a multiple of 2^32 |
| `Loggers.ForgottenUsers` | v2/src/logger.c:122 | a run of 2^32 + 1 inits whose first deinit shuts the logger down |
| `Loggers.EtwRollback` | v2/src/logger.c:75-84 | a failing sink and the rollback leave the ETW sink unregistered and never misused |
| `Loggers.StepKeepsEtw` | v2/src/logger.c:122-134 | every request keeps the ETW sink registered exactly while the logger that has it is initialized |
| `Loggers.EtwNeverMisused` | v2/src/log_sink_etw.c:572-636 | over every run, rollbacks included, the ETW sink is never initialized while registered nor deinitialized while not |
| `Loggers.EtwSink.Init` | v2/src/log_sink_etw.c:572-619 | fails if registered already or if registration fails, else registers |
| `Loggers.EtwSink.Deinit` | v2/src/log_sink_etw.c:621-636 | unregisters, or does nothing |
| `ThreadStack.SnprintfFallback` | v2/src/get_thread_stack.c:38-67 | the whole new memory: the text if it fits with its terminator, else the part of the fallback text that fits, over what the formatting call left; the end of the buffer stays put |
| `ThreadStack.PieceStands` | v2/src/get_thread_stack.c:38-67 | one more piece stands behind the text written so far, and nothing outside the buffer changes |
| `ThreadStack.PieceEnds` | v2/src/get_thread_stack.c:46-66 | after a good call that leaves room there is a terminator: behind a text that fits, at the end of the buffer behind a clipped one |
| `ThreadStack.AddFrame` | v2/src/get_thread_stack.c:519-520 | one pass of the frame loop does both |
| `ThreadStack.WriteFrames` | v2/src/get_thread_stack.c:476-557 | for any frames and failures the buffer starts with the text they determine, the cursor is behind it and the end of the buffer stays put |
| `ThreadStack.WriteStack` | v2/src/get_thread_stack.c:382-580 | nothing outside the buffer is written; the buffer starts with the text of the frames and reads as it if the last one fits; runs that reach line 580 leave a terminator in the last byte; after a failing ResumeThread a text that fills the buffer leaves no terminator, and if the last call was good there is one if and only if the text does not fill the buffer |
| `ThreadStack.ShownFirst` | v2/src/get_thread_stack.c:476-557 | the text starts with the frames before the first whose call fails or that does not fit, and is exactly those if there is no such frame; otherwise the fallback text follows as far as it fits |
| `ThreadStack.FrameStands` | v2/src/get_thread_stack.c:520 | among the shown frames, each stands behind the earlier ones and one newline for each of them |
| `ThreadStack.FilledStack` | v2/src/get_thread_stack.c:565-570 | three frames of 100 characters fill a buffer of 40 bytes with fallback texts, so that a failing ResumeThread leaves no terminator |
| `ThreadStack.NoiseDecides` | v2/src/get_thread_stack.c:46-60 | after a failing last call that leaves room, what that call left in the buffer decides about the terminator: both outcomes occur |
| `ThreadStack.MaskIsAllOnes` | v2/src/get_thread_stack.c:215-223 | the six shift-or steps set every bit below the highest set one |
| `ThreadStack.MaskCovers` | v2/src/get_thread_stack.c:215-223 | the mask contains every bit of the maximum address |
| `ThreadStack.MaskIsNotBelow` | v2/src/get_thread_stack.c:215-223 | the mask is not below the maximum address |
| `ThreadStack.MaskIsLeast` | v2/src/get_thread_stack.c:215-223 | no smaller all-ones mask covers the maximum address |
| `ThreadStack.StripKeepsValid` | v2/src/get_thread_stack.c:129-136 | addresses up to the maximum are unchanged by stripping |
| `ThreadStack.StripRecovers` | v2/src/get_thread_stack.c:129-136 | any bits above the mask are removed, once and for all |
| `SearchPath.LastBackslash` | v2/src/get_thread_stack.c:295 | the last backslash, or -1 |
| `SearchPath.DirectoryIs` | v2/src/get_thread_stack.c:295-310 | a module whose last backslash is among the first 260 characters has the directory before it, any other is skipped |
| `SearchPath.AddOne` | v2/src/get_thread_stack.c:313-334 | one directory, separator first, whether or not it fits |
| `SearchPath.BuildSearchPath` | v2/src/get_thread_stack.c:280-339 | for any modules and any initial buffer: one step per accepted directory; if all fit, the buffer is a C string of the recorded length, the separated directories |
| `SearchPath.HoldsWhileFitting` | v2/src/get_thread_stack.c:313-328 | as long as all directories fit, the buffer is a C string of the recorded length |
| `SearchPath.PathExtends` | v2/src/get_thread_stack.c:313-334 | over every run, fitting or not: what is recorded stays and has no terminator in it, the bytes behind it are untouched, and the length stays below 32768 |
| `SearchPath.WrittenStays` | v2/src/get_thread_stack.c:324-328 | a new directory that has room when its turn comes is in the final path, even if others had none |
| `SearchPath.DirectoriesAreThere` | v2/src/get_thread_stack.c:313-328 | every accepted directory occurs in the path |
| `SearchPath.RepeatsAddNothing` | v2/src/get_thread_stack.c:313-316 | a directory that comes again adds nothing |
| `SearchPath.StepStringIff` | v2/src/get_thread_stack.c:313-334 | from any C string of its recorded length, a directory leaves one if and only if it is there already, fits, comes when the path ends with the buffer, or the buffer held a zero behind the separator from the start |
| `SearchPath.PathStringIff` | v2/src/get_thread_stack.c:280-339 | over every run: the path is a C string of its recorded length after every module if and only if every directory meets that condition, and then it is the recorded text |
| `SearchPath.FirstUnfit` | v2/src/get_thread_stack.c:319-333 | the first directory that does not fit leaves a separator and, behind it, the byte the buffer held before the path was built |
| `SearchPath.LostTerminator` | v2/src/get_thread_stack.c:319-333 | 127 modules whose path has no terminator at its recorded length unless the buffer happened to hold one |
| `Pipeline.BuildAndPrint` | v2/src/log_context_property_to_string.c:125-148 | for every chain of context creations whose array can be read, wrapped counts included, the buffer ends up with the clipped text of the tree found in it, which is the intended one if the chain is sound |
| `Pipeline.BuildLocalAndPrint` | v2/inc/c_logging/log_context.h:202-246 | every chain of local contexts within 64 pairs and 4096 bytes prints the clipped text of all its generations |
| `Pipeline.BuildAndLog` | v2/src/log_sink_callback.c:89-172 | for every such chain the line is the clipped header, tree and message, or an error if the context has overflowed or the header leaves it no room |
| `Pipeline.BuildAndEmit` | v2/src/log_sink_etw.c:638-702 | for every chain of context creations below 65536 pairs, sound or not, the decoder finds content, file, func and line as given and all pairs with their values, which are the intended tree if the chain is sound; or, when they were given up, the fixed fields alone with the message prefix that fits |

## Left out

- Windows and dbghelp calls, thread suspension and the unwinder: the frames it delivers are parameters, and whether it ever stops is not modelled.
- `TraceLoggingRegister` and the event write itself: an emitted event is a value; registration outcomes are parameters.
- `time`, `ctime` and the composition of the line header: a line's header is a given text; message formats are given by their expansion.
- Conversion of wide characters that do not fit one byte: `WideText` covers units below 256; a failing conversion is a failing call.
- Buffer sizes above INT_MAX and 32-bit overflow of a context's pair count and data length: sizes are unbounded numbers; the casts to 8 and 16 bits and the 32-bit init counter are modelled.
- Formatting failures while a context is filled: an own property is two given byte strings, one per pass, that must agree in length.
- Own properties of struct type, and property types of the user's own: a value of unknown type reaches only the ETW encoder, which then gives up all properties.
- `malloc` layout of a context: pairs and values are two arrays, and a value pointer is an offset.
- Compile-time checks of the macros (duplicate names, format checking), ANSI colours, `LOG_CONTEXT_DESTROY`, error texts.
- `log_errno`, `log_lasterror`, `log_hresult`, `format_message_no_newline`, the v1 library: error-code lookups that go through the operating system, and a loop that strips trailing newlines.
- SearchPath.AddOne: `strstr` on a buffer without a zero byte goes on behind the buffer; the model's stops at its end.
- The calls of `get_thread_stack` without a buffer or before initialization: they do nothing, or are one `SnprintfFallback`.
