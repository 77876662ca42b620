# Verified models of the JSON-C, rmnetctl and USB gadget code

This project models, in Dafny, the parts of the repository that keep intricate state, and proves what
they are for. `dafny verify dfyconfig.toml` checks all of it.

**The JSON tokener** (`json-c/json_tokener.c`) is a resumable pushdown automaton. It appears four times.
`Tokener.dfy` is the structure with its fixed stack, updated in place, with the bulk-copy loops,
`redo_char` and the code after the label `out`. `Machine.dfy` is the same automaton as a function of one
step. `Reference.dfy` is a recursive-descent parser that has no stack, no saved states and no buffer, and
`Rfc8259.dfy` gives every text of RFC 8259 as a tree with its text, value and height. The class computes
exactly what the machine does, one call of the machine has the verdict of the recursive descent on every
input whatever the scratch fields hold (`Simulation.dfy`), and every RFC 8259 text is accepted with its
value or refused for its height alone (`Completeness.dfy`). `Success.dfy` says what success means in either
mode, and that every accepted value can be written and read again; `Unclosed.dfy` and `Comments.dfy` are
about the comments that JSON does not have. `Utf8.dfy` is about unicode escapes, `Int64.dfy` about integers;
`Steps.dfy` sorts the steps of the machine by kinds of states for the other proofs.

Texts that come in pieces have six files. `Split.dfy` defines when a cut is bad for the tokener and shows
that every other cut is harmless; `Cuts.dfy` shows that every bad one does harm, in some beginning of the
rest. `Scanner.dfy` and `NumberCuts.dfy` give the same condition on the text alone, which a caller can look
at before the call, `RfcScan.dfy` looks at it in RFC 8259 texts, and `Pieces.dfy` is about the loop that the
documentation recommends.

**Serializing** (`json-c/json_object.c`, `json-c/printbuf.c`) is done by methods that append to one growing
buffer (`PrintBuf.dfy`, `Serializer.dfy`); `RoundTrip.dfy` shows that the tokener reads the text back as
the same tree.

**Objects in memory**: `LinkHash.dfy` is the insertion-ordered open-addressing table of
`json-c/linkhash.c`, `HashLittle.dfy` its hash function, `ArrayList.dfy` the array, `RefCount.dfy` the
reference counts over the whole heap, and `Objects.dfy` says that the tokener's objects are the table's.

**Netlink attributes** (`dataservices/rmnetctl/src/librmnetctl.c`) are in `Netlink.dfy`: building nested
attributes whose lengths are filled in afterwards, and walking them. **The USB gadget monitor**
(`usb/UsbGadget.cpp`) is in `UsbMonitor.dfy`: a step system for the calling thread and the monitor
threads, with statements about every interleaving.

Where the code does not keep its promise the model keeps the code, and a lemma shows the case:

- A cut between (or inside) the two escapes of a surrogate pair loses the character, because the high half
  is a local of the call: `Pieces.CutLosesPair`. A cut in "-Infinity" makes an error of a number, because the
  count of bytes is one too: `NumberCuts.MinusCanMatter`. `NumberCuts.SplitSeen` says exactly when a cut matters, on
  every input: when it splits such a pair, when it comes right after the prefix of an escape behind a high
  half, or when it makes a minus and an "Infinity" look different. The comparison is made at every beginning
  of the rest, because in the whole text a later member with the same key can hide a damaged value; a
  beginning that ends within an escape is left out, because the digits read so far may still differ there.
  RFC 8259 texts have only the first two kinds of such cuts, and without them come to the same in pieces as in
  one call (`Pieces.SplitRfc8259`).
- The surrogate macros look at six bits only. `Utf8.PairReads` says exactly for which pairs a string gets
  the scalar value, whatever follows, and `Utf8.LoneHalf` when an unpaired half becomes U+FFFD; `Utf8.MisreadPair`
  is a pair that a third escape joins.
- Outside the range of int64 the recheck of `json_parse_int64` clamps to the wrong side in one case, and it
  refuses a zero that something follows: `Int64.RecheckRepairs` and `Int64.RecheckExact` say exactly when.
- `mCurrentUsbFunctionsApplied` can be true after a request for no functions: `UsbMonitor.AppliedCanBeWrong`.
  `UsbMonitor.NoneCanStayApplied` says that this is known before the call: it can happen if and only if
  `mMonitorCreated` is set.
- `rtrmnet_ctl_getvnd` gives `rta_parse` a table that is one entry short. `Netlink.RtaParse` reports exactly when
  the source writes behind it, and `Netlink.TableIsTooShort` says for which links that is.
- `json_object_object_add` and its siblings write into the container after they have put what its slot held.
  `RefCount.Heap.Drop` says exactly when the container is still there; in `RefCount.ContainerCanDie` it is not.
- A comment that is never closed passes for the end of an array or an object: `json_tokener_parse` reads
  `[1/*` as the number 1 (`Unclosed.UnclosedArray`). `Unclosed.NestedSuccess` says exactly when a call ends
  with success inside of something, and `Success.SuccessIsSound` that it is otherwise one value of the grammar.
- The end of a comment is not seen if an odd number of stars comes right before it, as in `/***/`
  (`Comments.ThreeStars`); `Comments.CommentEnds` says what happens then, and `Comments.EndIsSeen` that this is
  the exact condition.

The documentation of `json_tokener_parse_ex` (json-c/json_tokener.h:138-142) promises that any partial text
can be continued; the code, followed here, does so except at the cuts named above. `mix` in
`json-c/linkhash.c` is described there as reversible, and is (`HashLittle.MixIsReversible`).

Preconditions that a reader may wonder about: `LhTable.Insert` asks for a key that is not in the table,
because `lh_table_insert` does not look for duplicates and its only caller has just looked; `LhTable.Resize`
asks for the room that keeps the re-insertions from resizing again; the names in `Netlink` are shorter than
16 bytes, as kernel interface names are; `Heap.ObjectAdd` and its siblings ask that the caller owns the
reference that it hands over and that the container survives the put of what the slot held, which
`RefCount.OwnedIsSafe` and `RefCount.BorrowedIsSafe` give for owned and for borrowed containers.

## Model

| member | source | states |
|---|---|---|
| Machine.StepKeeps | json-c/json_tokener.c:137-882 | every step keeps the stack invariant (each level under the top waits in array_add with an array, or in object_value_add with an object and a field name; depth below max_depth), and a step that consumes nothing lowers a rank, so redo_char cannot cycle |
| Machine.RunKeeps | json-c/json_tokener.c:258-882 | a call that waits or succeeds leaves a tokener with the stack invariant, with no more bytes left over than came in, and no failure is reported as success |
| Machine.DispatchBound | json-c/json_tokener.c:258-847 | the dispatches of one call are at most 11 times the length of the input |
| Machine.NulStops | json-c/json_tokener.c:211-226 | a text ended by its NUL never leaves the tokener waiting |
| JsonTokener.Tokener.ParseEx | json-c/json_tokener.c:232-882 | the method on the stack array returns, for every input and length argument, the object, error, offset and new tokener state that the step machine defines, also the offset of an error, and the size error leaves the tokener as it was |
| JsonTokener.Tokener.MainLoop | json-c/json_tokener.c:258-847 | the loop with its bulk-copy inner loops reaches the label out with the machine's outcome still to be read off |
| JsonTokener.Tokener.CaseUnicode | json-c/json_tokener.c:533-631 | the digit loop, with its look-ahead and its local high half, takes the machine's steps |
| JsonTokener.Tokener.AtOut | json-c/json_tokener.c:849-882 | trailing bytes in strict mode and an early NUL become errors, success returns the value and resets every level down to the first |
| JsonTokener.Tokener.ResetAll | json-c/json_tokener.c:147-157 | whatever error came before, the tokener is ready for a new text |
| JsonTokener.ParseVerbose | json-c/json_tokener.c:167-185 | the value or error for a C string is that of the recursive-descent grammar, and never a wait for more |
| Simulation.CallIsDocument | json-c/json_tokener.c:232-882 | for every input, mode and depth limit, one call from a reset tokener accepts exactly what recursive descent over the grammar accepts, with the same value, depth, bytes left over and error |
| Completeness.AcceptsRfc8259 | json-c/json_tokener.c:717-835 | in either mode an RFC 8259 text with spaces around it and a NUL after it is accepted with its value if and only if its height is at most max_depth - 1, and otherwise the error is error_depth |
| Completeness.AcceptsAtEnd | json-c/json_tokener.c:211-218 | the same with an explicit length and no NUL, for arrays, objects and strings, and for any value that a space follows |
| Success.SuccessIsSound | json-c/json_tokener.c:849-882 | in either mode a result fits max_depth at the depth it was found and can be written unless Infinity or NaN is in it; and the tokener is back at depth 0 exactly if what it read is one value of the grammar with a gap behind it |
| Success.StrictSuccess | json-c/json_tokener.c:849-882 | success in strict mode: the tokener is back at depth 0, what it read is one value of the grammar, and only spaces follow it up to the end or a NUL |
| Success.ParseAgain | json-c/json_object.c:309-353 | parse, serialize, parse: every value that any call accepts, if it has no Infinity and no NaN, comes back from its serialization, with any flags |
| Unclosed.NestedSuccess | json-c/json_tokener.c:424-475 | a call ends with success inside an array or an object if and only if, outside of strings and right behind an element, where a comma would leave the tokener waiting, a gap begins in which a comment holds a NUL |
| Unclosed.UnclosedArray | json-c/json_tokener.c:864-868 | `[1/*` as a C string gives the number 1 with success |
| Comments.CommentEnds | json-c/json_tokener.c:436-475 | a comment ends at its first star with a slash behind it if an even number of stars comes right before; if the number is odd, the comment goes on behind that slash |
| Comments.EndIsSeen | json-c/json_tokener.c:467-475 | the end of a comment is seen, whatever follows, if and only if that number is even |
| Comments.ThreeStars | json-c/json_tokener.c:467-475 | the comment of three stars is not closed |
| Split.SplitRun | json-c/json_tokener.c:192-226 | after a piece that ends in continue, a second call ends as one call with the whole text would, unless the cut is bad for the tokener |
| Split.SplitInvariance | json-c/json_tokener.h:138-142 | however many pieces a text comes in, feeding them up to the first result other than continue gives the tokener, error, value and bytes left over of one call |
| Cuts.SplitExact | json-c/json_tokener.c:535-587 | the second call agrees with one call, at the end of the text and at every beginning of the rest that does not end within an escape, if and only if the cut is not bad |
| NumberCuts.SplitSeen | json-c/json_tokener.c:535-686 | the same for a fresh tokener with the condition on the text alone: the cut splits no surrogate pair, does not follow the prefix of an escape behind a high half, and is not behind a minus such that the count of bytes starts again before "Infinity" |
| NumberCuts.BadIffSeen | json-c/json_tokener.c:578-686 | for a fresh tokener that waits at a cut, what its states say about the cut is what a scan of the text for strings, comments, escapes and numbers says |
| NumberCuts.MinusCanMatter | json-c/json_tokener.c:663-686 | "-" and then "Infinity " is error_number in two calls and the number in one |
| Scanner.PieceTracks | json-c/json_tokener.c:533-631 | a piece that ends at a cut that splits no pair leaves the tokener at that place of the text, however many pieces came before |
| RfcScan.NoNumberCut | json-c/json_tokener.c:663-686 | no RFC 8259 text has an "i" behind a number, so that cuts at a minus are harmless in all of them |
| Pieces.CleanIsSame | json-c/json_tokener.h:138-142 | if no cut splits a pair or is behind a number that an "i" follows, any text in pieces comes to what one call comes to: the same waiting tokener, error and offset, or value and bytes left over |
| Pieces.SplitRfc8259 | json-c/json_tokener.h:138-142 | the same for every RFC 8259 text, of any height and with numbers and words whose end is not yet seen, if no cut splits a surrogate pair |
| Pieces.FeedRfc8259 | json-c/json_tokener.h:138-142 | so every such text whose end is seen is accepted in pieces with its value, or refused with error_depth for its height, down to one byte per call |
| Pieces.ParseInPieces | json-c/json_tokener.h:172-188 | the documented loop around json_tokener_parse_ex gives the value, the error or the waiting tokener that feeding the pieces defines |
| Pieces.ValueStands | json-c/json_tokener.c:347-352 | what follows a complete value may make the call fail, but never changes the value and is never too deep |
| Pieces.CutLosesPair | json-c/json_tokener.c:535-587 | for every surrogate pair, a cut between its escapes yields two replacement characters where one call yields the pair's character |
| Utf8.StringIsUtf8 | json-c/json_tokener.c:533-631 | if the text of a string is well-formed by the grammar of section 4 of RFC 3629, so is the string made of it, with escapes in any order |
| Utf8.AppendIsUtf8 | json-c/json_tokener.c:562-622 | every finished code appends a well-formed character, and an unpaired half appends U+FFFD |
| Utf8.EncodeIsUtf8 | json-c/json_tokener.c:562-617 | for every scalar value the bytes appended are one well-formed character that decodes to it |
| Utf8.PairReads | json-c/json_tokener.c:545-591 | a surrogate pair in a string gives the encoding of its RFC 8259 scalar value, followed by what follows, if and only if the low 16 bits of that value are outside 0xD800 to 0xDFFF |
| Utf8.LoneHalf | json-c/json_tokener.c:563-591 | a half in a string gives U+FFFD, followed by what follows, if and only if it is a low one or no escape of a low half comes right after it |
| Utf8.MisreadPair | json-c/json_tokener.c:545-591 | the pair D836 DC00 and another DC00 behind it give the one character U+10000 |
| Int64.JsonParseInt64 | json-c/json_util.c:179-264 | for any scanner result and either setting of sscanf_is_broken, the loops over spaces, zeros and digits return what the check on the text defines |
| Int64.RecheckExact | json-c/json_util.c:215-248 | for "-?digits" followed by anything, any int64 from the scanner is accepted if and only if it is the number written and not a zero that something follows |
| Int64.RecheckRepairs | json-c/json_util.c:215-262 | for "-?digits" a wrong scan is replaced by the bound on the side of the sign; for a number out of range the result is the clamped number if and only if the scan was not zero or no minus was written |
| Int64.ClampTwice | json-c/json_object.c:539-547 | clamping the clamped int64 to 32 bits is clamping the true number |
| Int64.SignedRoundTrip | json-c/json_object.c:500-506 | every int64 printed and parsed is itself |
| Int64.DecimalOfValue | json-c/json_util.c:223-228 | printing what digits without leading zeros denote gives the digits back |
| PrintBuf.PrintBuf.Extend | json-c/printbuf.c:57-78 | the buffer holds the same content, has the room asked for, and the bytes ever moved by growth stay below the capacity, which is linear in the most ever asked for |
| PrintBuf.PrintBuf.MemAppend | json-c/printbuf.c:80-90 | the content is the old one and the data, and a NUL ends it |
| PrintBuf.PrintBuf.MemAppendFast | json-c/printbuf.h:42-49 | the inlined path has the effect of the call |
| PrintBuf.PrintBuf.MemSet | json-c/printbuf.c:92-110 | from any offset the fill is there, what was before it stays, and the content ends at the further of the two ends |
| PrintBuf.PrintBuf.Reset | json-c/printbuf.c:181-185 | the content is empty and ended by a NUL, the capacity stays |
| Serializer.EscapeStr | json-c/json_object.c:100-147 | collecting unescaped chunks and flushing them appends the byte-by-byte escape of the string |
| Serializer.EscapeIsClean | json-c/json_object.c:100-147 | escaped text has no control byte, and every quote and backslash in it belongs to an escape |
| Serializer.ArrayToJsonString | json-c/json_object.c:810-850 | the loop appends the text of the array and ends the buffer with a NUL despite unterminated indentation |
| Serializer.ObjectToJsonString | json-c/json_object.c:309-353 | the loop appends the text of the object and ends the buffer with a NUL despite unterminated indentation |
| Serializer.ToJsonStringExt | json-c/json_object.c:276-290 | the buffer afterwards is exactly the C string of the value, its size is linear in the longest text it ever held, and growing it has moved fewer bytes than its size |
| RoundTrip.EscapeRoundTrip | json-c/json_object.c:100-147 | the escape of any byte string, NUL and bytes above 0x7F included, is a sequence of RFC 8259 items whose value is the string |
| RoundTrip.EscapeDecodes | json-c/json_tokener.c:477-531 | the string states decode the escape back, up to the closing quote and not beyond |
| RoundTrip.ParseSerialized | json-c/json_object.c:309-353 | for every tree of null, booleans, int64, text-carrying doubles, byte strings, arrays and objects with distinct NUL-free keys, any flags and either mode, parsing the serialization gives the same tree in the same order if its height fits max_depth, and error_depth otherwise |
| LinkHash.LhTable.LookupEntry | json-c/linkhash.c:527-542 | the probe ends, also when no slot is empty, and finds the slot of the key if and only if the key is in the table |
| LinkHash.LhTable.Lookup | json-c/linkhash.c:552-561 | the value is the one that the list of pairs holds for the key |
| LinkHash.LhTable.FreeSlotFor | json-c/linkhash.c:503-507 | the endless loop ends at a slot that is not live, and all slots before it in the probe are live |
| LinkHash.LhTable.Insert | json-c/linkhash.c:493-524 | the pair comes last in the list, at most one resize happens, and the size doubles exactly when the load factor was reached |
| LinkHash.LhTable.Resize | json-c/linkhash.c:460-478 | the pairs and their order stay, no tombstone is left, and no nested resize takes place |
| LinkHash.LhTable.DeleteEntry | json-c/linkhash.c:563-589 | exactly the pair of the entry leaves the list, its slot becomes a tombstone and no other slot changes its key; an entry that is not live gives -1 and changes nothing |
| LinkHash.LhTable.Delete | json-c/linkhash.c:592-597 | the key leaves the list, and the result says whether it was there |
| LinkHash.LhTable.Update | json-c/json_object.c:399-416 | the value of an existing key is replaced in its place, a new key comes last |
| LinkHash.LhTable.Walk | json-c/linkhash.h:159-160 | from head to tail every live slot is visited once, in insertion order |
| LinkHash.InsertProbed | json-c/linkhash.c:503-511 | filling the first slot of the probe that is not live keeps every key reachable without an empty slot between |
| LinkHash.DeleteProbed | json-c/linkhash.c:570-574 | a tombstone keeps every key reachable without an empty slot between |
| LinkHash.EmptyStops | json-c/linkhash.c:534-535 | a key whose probe meets an empty slot is not in the table |
| LinkHash.FreeSlot | json-c/linkhash.c:497-507 | with fewer live slots than slots one is not live, by counting |
| LinkHash.DeleteLinked | json-c/linkhash.c:575-587 | the four cases of unlinking leave next and prev inverse to each other along the shorter list |
| LinkHash.UpdatedFinds | json-c/json_object.c:399-416 | after an update the key has the new value and every other key the old one |
| LinkHash.WithoutFinds | json-c/linkhash.c:592-597 | after a removal the key is gone and every other key has its value |
| Objects.ObjectAddIsUpdate | json-c/json_tokener.c:823-829 | the members that the tokener collects are those of the hash table |
| HashLittle.HashLittle | json-c/linkhash.c:232-398 | whichever of the three readers the address selects, the result is the hash of the key's own bytes and independent of what lies behind them |
| HashLittle.LastByWords | json-c/linkhash.c:255-282 | the masked loads of the last block add what the remaining bytes of the key alone define |
| HashLittle.LastByHalves | json-c/linkhash.c:321-351 | the 16-bit switch with its fall-throughs adds the same |
| HashLittle.LastByBytes | json-c/linkhash.c:376-393 | the byte switch with its fall-throughs adds the same |
| HashLittle.MixIsReversible | json-c/linkhash.c:115-166 | mix can be undone, so it loses nothing of its three words |
| ArrayList.ArrayList.Expand | json-c/arraylist.c:59-73 | the entries stay, the new ones are NULL, and the size at least doubles when it changes |
| ArrayList.ArrayList.PutIdx | json-c/arraylist.c:76-83 | one entry is replaced, or the gap behind the end is filled with NULL, and the old entry goes to free_fn |
| ArrayList.ArrayList.Free | json-c/arraylist.c:43-50 | free_fn gets every entry that is not NULL, once for each slot, in order |
| RefCount.Heap.Get | json-c/json_object.c:152-157 | the caller owns one more reference, and every count is still the references owned plus the slots that hold the object |
| RefCount.Heap.Put | json-c/json_object.c:159-173 | one reference goes, exactly the least set closed under losing references dies, survivors keep their content, and every count is still the references owned plus the slots that hold the object |
| RefCount.Heap.Release | json-c/json_object.c:159-173 | the recursion ends, and all that it frees lies in every set closed under losing references |
| RefCount.Heap.Delete | json-c/json_object.c:356-366 | a dead container releases exactly what its slots hold and is freed once |
| RefCount.DeadAreClosed | json-c/json_object.c:159-173 | what dies is closed under losing references: an object whose references all come from the one given up and from what dies has died |
| RefCount.DiedIsLeast | json-c/json_object.c:159-173 | what dies is the least closed set, so an object dies if and only if it is in every closed set |
| RefCount.Heap.Drop | json-c/json_object.c:413-415 | after a slot is cleared and what it held is put, the container is still there if and only if it was not among the objects that the slot alone kept alive |
| RefCount.OwnedIsSafe | json-c/json_object.c:399-416 | an object that the caller owns a reference to besides the one put survives the put |
| RefCount.BorrowedIsSafe | json-c/json_object.c:399-416 | so does an object in a slot of one that survives: a container that was only borrowed from its parent |
| RefCount.ContainerCanDie | json-c/json_object.c:413-415 | two arrays that hold each other and that nobody owns: clearing the slot of one kills it |
| RefCount.Heap.ObjectAdd | json-c/json_object.c:399-416 | into any object that survives the put of the old value, owned or borrowed: the reference moves in, the old value is released, and counts stay conserved in the whole heap |
| RefCount.Heap.ObjectDel | json-c/json_object.c:449-452 | from any object that survives it: the member goes, its value is released, and counts stay conserved |
| RefCount.Heap.ArrayPutIdx | json-c/json_object.c:897-906 | into any array that survives the put of the old entry: the reference moves into the slot, what it held is released, and counts stay conserved |
| RefCount.HeldUpdate | json-c/json_object.c:399-416 | changing one object changes the references held in the heap by what that object held before and holds now |
| RefCount.Die | json-c/json_object.c:163-170 | when the last reference to an object goes, what it held is owned by the deletion and all other counts still add up |
| Netlink.Request.RtaPut | dataservices/rmnetctl/src/librmnetctl.c:1058-1070 | an attribute with its length, type and padded data is appended; without room the data are left out and success is reported all the same |
| Netlink.Request.NestedEnd | dataservices/rmnetctl/src/librmnetctl.c:1133-1136 | only the length at the start of the nest changes, to the distance to the end of the message |
| Netlink.Request.FillNewlink | dataservices/rmnetctl/src/librmnetctl.c:1174-1222 | for names under 16 bytes the message fits its buffer and is the encoding of the attribute tree, with every nested length covering exactly its children, and nlmsg_len covers it all |
| Netlink.Request.FillFlow | dataservices/rmnetctl/src/librmnetctl.c:1234-1274 | the same for flow messages |
| Netlink.CloseBytes | dataservices/rmnetctl/src/librmnetctl.c:1218-1219 | filling in the two open lengths, the inner first, turns the appended bytes into the encoding of the tree |
| Netlink.RtaFind | dataservices/rmnetctl/src/librmnetctl.c:1153-1161 | the loop ends and returns the first attribute of a kind |
| Netlink.RtaParse | dataservices/rmnetctl/src/librmnetctl.c:1138-1151 | the table holds the last attribute of each kind below maxtype, and the source has written behind it exactly if the walk met the kind maxtype |
| Netlink.FindsFirst | dataservices/rmnetctl/src/librmnetctl.c:1153-1161 | on encoded attributes the walk finds the first of a kind where it was put |
| Netlink.TableHolds | dataservices/rmnetctl/src/librmnetctl.c:1138-1151 | on encoded attributes the table has the last of each kind where it was put |
| Netlink.MeetsKind | dataservices/rmnetctl/src/librmnetctl.c:1144-1147 | on encoded attributes the walk meets a kind if and only if one of the attributes has it |
| Netlink.TableIsTooShort | dataservices/rmnetctl/src/librmnetctl.c:1598-1601 | the table for the data of a link suffices if and only if none of its attributes has the kind behind the last one |
| Netlink.GetVnd | dataservices/rmnetctl/src/librmnetctl.c:1580-1630 | for any response the walk through link info and data reports the mux id, the flags and the uplink parameters that the nested attributes define, unless the table was too short, which is exactly when the data have an attribute of the kind behind the last one |
| Netlink.NewlinkRoundTrip | dataservices/rmnetctl/src/librmnetctl.c:1580-1610 | walking the message that rmnet_fill_newlink_msg builds gives back the mux id, and the flags if they are not zero, whatever follows in the buffer |
| Netlink.BuildAndWalk | dataservices/rmnetctl/src/librmnetctl.c:1174-1222 | a message built for any device, name, mux id and flags, walked as the response is, gives back the mux id, and the flags if they are not zero |
| UsbMonitor.StepKeeps | usb/UsbGadget.cpp:93-185 | every step of the caller or of a monitor keeps the invariant of the protocol |
| UsbMonitor.OneMonitor | usb/UsbGadget.cpp:243-284 | over every interleaving at most one monitor is alive, and then mMonitorCreated is set |
| UsbMonitor.ListChangesAlone | usb/UsbGadget.cpp:276-283 | the endpoint list only changes, and the descriptors are only reset and replaced, while no monitor is alive; only the step that replaces them can start one |
| UsbMonitor.JoinIsSafe | usb/UsbGadget.cpp:257-274 | the join never waits while the caller holds mLock, and the monitor it waits for can always take a step, or end when it is in epoll_wait |
| UsbMonitor.SuccessIsEarned | usb/UsbGadget.cpp:605-627 | when success is reported for FunctionFS, the monitor of this call found every endpoint in one scan right before it wrote the UDC, and the gadget is still pulled up |
| UsbMonitor.NoneCanStayApplied | usb/UsbGadget.cpp:631-655 | from every reachable idle state, some run of a request for no functions ends with mCurrentUsbFunctionsApplied set, and some with the gadget pulled up, if and only if mMonitorCreated is set before the call |
| UsbMonitor.NoneStaysOff | usb/UsbGadget.cpp:631-655 | if mMonitorCreated is not set, the field stays clear throughout such a request, whatever fails, and the gadget is down after the pull-down if none of them failed |
| UsbMonitor.AppliedCanBeWrong | usb/UsbGadget.cpp:636-641 | a run that ends with no functions, no monitor, and mCurrentUsbFunctionsApplied set |

## Left out

- Floating point: a double is its literal text; `%.17g`, NaN and Infinity in the serializer, and what `%lf` accepts (a parameter `readable`) are not modelled.
- Failing allocations, `int` overflow of buffer sizes, locale switching, files, sockets, sysfs, epoll and inotify themselves: their outcomes are parameters or actions.
- Custom serializers, user data callbacks and `JSON_C_TO_STRING_NOZERO`.
- The bytes that the tokener's look-ahead may reach behind the NUL of a C string; a shift by a negative count contributes 0.
- JsonTokener.Tokener.ParseEx: the state after an error is only said to be usable after `json_tokener_reset`; the field `pb` is a sequence here, the growing buffer being modelled in PrintBuf. A NUL as the last digit of an escape after `\ud83`, with `\u` behind the NUL, is given an offset one too low.
- NumberCuts.SplitSeen: one cut of a fresh tokener; for more pieces `Pieces.CleanIsSame` shuts out all cuts behind a number that an "i" follows, also those that do not matter. No RFC 8259 text has one.
- LinkHash.LhTable.Insert: a table with a key twice is not modelled; neither are the statistics counters except `resizes`. The load factor 0.66 is compared exactly, without the rounding of a C double.
- LinkHash.LhTable.Resize: a new size that is too small for the load factor, with which the source resizes again while it resizes; no caller passes one.
- LinkHash.LhTable.DeleteEntry: `free_fn` is modelled in RefCount.
- RefCount.Heap.Drop: a slot is cleared before its value is put, where the source leaves the old pointer in the slot until after the call; a container that dies in that put is where the source then writes into freed memory.
- HashLittle.HashLittle: the per-process random seed is the parameter `initval`.
- Netlink.Request.RtaPut: an attribute that would run past the buffer of the request, which the source writes all the same; the messages of `FillNewlink` and `FillFlow` never do.
- Netlink.GetVnd: the values are read from the memory behind the attribute header even where the attribute is shorter, so a few bytes behind the message are taken to be readable. The request header is not built.
- UsbMonitor.SuccessIsEarned: `UsbGadget::reset`, which the framework may call, is not among the steps.
- UsbMonitor.JoinIsSafe: the write to the event descriptor is taken to succeed, and the scheduler to be fair.
- The choice of vendor and product ids, property names and the list of linked functions in `setupFunctions`, which no other part depends on.
- `datatop`, `rmnetcli`, `light`, `power`, `powerstats`, `libqti-perfd-client`, kernel headers: input and output, command lines and tables.
