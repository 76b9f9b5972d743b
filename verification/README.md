# JContainers: verified model of the object store

JContainers keeps script-visible containers (arrays, maps, form maps, integer maps) that refer to each
other freely. Objects are counted by four counters, kept alive for a while by a timed queue, swept by a
tracing collector, written to JSON and read back, deep-copied, addressed by paths, and keyed by references
to game forms that expire while they are keys. This project models those parts in Dafny and proves what they
promise, for all inputs and all runs. `dafny verify dfyconfig.toml` checks everything.

## What is modelled, file by file

- `QueueClock`, `Lifetime`, `Reclamation`, `Collection`: the life of objects without any counter. A `World`
  says which slots hold which objects, which user and stack references there are, and which objects are
  queued with which age; who owns an object is read off that. Every API call, every tick and every collection
  is one atomic `Action`, and the theorems are about all sequences of actions.
- `StoreState`, `ObjectContext`, `GarbageCollector`, `IdGenerator`, `Registry`: the code's own state (four
  counters per object, the queue as a sequence, push times on a wrapping 32-bit clock, `_toRelease`, the
  handle table, the id ranges) and its methods. Each public method of `ObjectContext.Context` ends in the
  state that the matching `Action` gives, and keeps every counter equal to what it counts; so any sequence of
  calls is a run of `Lifetime`, and the theorems about runs hold of the counting code.
- `Collections`, `Graph`, `Paths`, `CreativeAccess`: containers with their slots, isomorphism of object
  graphs, the path printer and parser, lookups by path, and assignment that creates missing containers.
- `JsonDocument`, `JsonEncoding`, `JsonSerializer`, `JsonDecoding`, `JsonDeserializer`, `JsonResolution`,
  `JsonRoundTrip`: both breadth-first walks with their work lists, the references printed as
  `__reference|path` along shortest paths, and their resolution in any order. JSON is a table of nodes; the writer's invariant
  tells for each discovered object its node, its path and the slot it hangs under, the reader's for each node
  its object and what has been read.
- `DeepCopy`: the memoised copy, with its work list.
- `Sequences`: work lists and the sets of their elements.
- `Numerals`, `FormCodec`: `printf`/`strtol` numerals and the `__formData|mod|0x..` strings of form ids.
- `FormKeys`, `FormMap`: the form observer's weak table, references that expire together, and the ordered map
  whose keys change rank while they are in it.
- `LineWrap`: the first cut of a text into lines and the hill climbing that evens them out, over rationals.

## Where the code does less than one would expect

Exact conditions are proved in both directions; where an example is named, it shows the failing side.

- A tick counter value of 2^32-1 behaves like 0: subtraction undoes addition exactly for times below it
  (`QueueClock.SubtractUndoesAdd`). The counter never takes that value.
- An id generator that has handed out every id is unusable after the next `reuse_id`: its cursor is a valid
  position after a reuse exactly if it was one before (`IdGenerator.Generator.ReuseId`;
  `IdGenerator.LastIdAndBack` takes the last id and gives it back).
- Ticks alone reclaim a graph without user and stack references exactly if it is acyclic
  (`Reclamation.ReclaimedIfAcyclic`).
- Collecting twice finds garbage again exactly if something is held by stack references alone
  (`Collection.NextGarbage`).
- Assigning to a path in creative mode and reading it back gives a scalar exactly if the slot written is not
  one of those walked to reach it (`CreativeAccess.ScalarAssignThenGet`); ".a.a" on a map that holds itself under
  "a" is such a path (`CreativeAccess.SelfLoop`).
- A map key survives in a path exactly if it is not empty and has neither '.' nor '['
  (`Paths.ParsePrintedName`), a form key exactly if its string decodes to it and has no ']'
  (`Paths.ParsePrintedForm`). Plugins named like "[x] a.esp" have form strings that decode, but every path through
  such a key leads nowhere (`Paths.BracketLosesWay`, `Paths.BracketInName`), and references with such a path are not
  resolved (`JsonResolution.BracketLosesReference`). For one like "Mod [v2].esp" the path goes on with the name
  "esp|0x14]" behind the form (`Paths.WalkRead`, `Paths.DottedInName`). A key of 1024 characters is looked up without its last one
  (`Paths.TooLong`).
- A scalar or key survives JSON exactly if it does not look like a mark and, if it is a form, its string leads back
  to it (`JsonRoundTrip.ScalarRoundTrip`, `JsonRoundTrip.KeyRoundTrip`).
- A form string decodes to its id exactly if the name of the mod is not empty, has no bar and resolves to that mod
  (`FormCodec.RoundTrip`). Outside VR jc_skse.cpp:195-198 reads the names of light plugins from the list of all
  loaded ones, so a light form is taken for one of the regular plugin of that index
  (`FormCodec.LightTakenForRegular`), and of two plugins with one name only one has forms that survive
  (`FormCodec.OneNameOnePlugin`).
- Looking up form id 0 in a form map does not look for the null key: it gives the first key if that one is
  expired (`FormKeys.FindZero`). Expired keys of one form can pile up (`FormKeys.ExpiredPileUp`).
- The first cut of the line wrapper, computed over rationals, loops for ever exactly if the text or the line width
  is a single character and the text has a blank (`LineWrap.EndsExactly`, `LineWrap.SingleBlank`).
- A round of the line wrapper that ends with the lines it began with need not have reached a local optimum of every
  line: a word can go to the neighbour and back at equal variance (`LineWrap.WordThereAndBack`). No turn of a round
  changes anything exactly if every line is at one (`LineWrap.QuietRound`).

## Model

| member | source | states |
|---|---|---|
| JsonRoundTrip.WriteAndRead | src/JContainers/src/collections/json_serialization.h:132-154 | Writing any closed graph, cyclic or shared, and reading the JSON back terminates; if the graph is portable the result is isomorphic to what was reachable from the root, made of new objects, and no object already in the context changes |
| JsonRoundTrip.RoundTripIsomorphic | src/JContainers/src/collections/json_serialization.h:386-401 | For every finished write of a portable graph and every finished load of that JSON, with references resolved in any order: same kinds, key spellings, scalars, sharing and cycles |
| JsonRoundTrip.PlainIsPortable | src/JContainers/src/collections/json_serialization.h:527-578 | A condition on the graph alone that makes it portable: plain keys and items, and for objects that more than one slot holds, distance from the root times widest printed key within the 1024 characters of a path |
| JsonRoundTrip.SmallIsPortable | src/JContainers/src/collections/json_serialization.h:527-578 | The same with the number of objects in place of the distance |
| JsonEncoding.NotedIsShortest | src/JContainers/src/collections/json_serialization.h:386-401 | As the walk is breadth first, the noted path of an object has the least number of keys that lead to it from the root |
| JsonRoundTrip.HeldTwice | src/JContainers/src/collections/json_serialization.h:403-418 | Only the root and objects that more than one slot holds are written as references |
| JsonRoundTrip.ScalarRoundTrip | src/JContainers/src/collections/json_serialization.h:474-521 | A scalar is read back as it was exactly if it is no text that starts with a mark and no form whose string is missing or leads elsewhere, except that form 0 also survives a string that does not decode |
| JsonRoundTrip.KeyRoundTrip | src/JContainers/src/collections/json_serialization.h:432-460 | A key is read back as it was exactly if it is neither one of the two names of type information nor a form whose string is missing or leads elsewhere |
| JsonRoundTrip.NodeIsPlaced | src/JContainers/src/collections/json_serialization.h:183-232 | Every JSON node that gets an object when read is the node of an object of the graph |
| JsonRoundTrip.PlacedIsLoaded | src/JContainers/src/collections/json_serialization.h:183-232 | Every object that was written gets an object when read |
| JsonRoundTrip.WalkToPlace | src/JContainers/src/collections/json_serialization.h:467-472 | Following the noted keys of an object from the root in the loaded graph, before any reference is resolved, arrives at its copy |
| JsonRoundTrip.TargetOf | src/JContainers/src/collections/json_serialization.h:156-167 | The printed path of an object, looked up in the loaded graph, leads to its copy |
| JsonRoundTrip.TidyLoad | src/JContainers/src/collections/json_serialization.h:278-288 | After loading a written graph each slot waiting for a reference is there, blank, and waits for one path only |
| JsonRoundTrip.KeysLead | src/JContainers/src/collections/json_serialization.h:467-472 | At any moment of the walk, following the noted keys of a discovered object from the root arrives at the object |
| JsonRoundTrip.PrintedPathLeads | src/JContainers/src/collections/json_serialization.h:527-578 | At any moment of the walk the printed path of a discovered object, looked up from the root, arrives at exactly that object |
| JsonEncoding.EmitKeepsInv | src/JContainers/src/collections/json_serialization.h:420-465 | Writing one slot keeps the writer's invariant: written slots hold their values unless another slot has the same member name, nodes hold nothing else, each object hangs under an earlier written slot, the node table is a tree |
| JsonEncoding.PlacedIsReachable | src/JContainers/src/collections/json_serialization.h:386-401 | The objects in the finished JSON are exactly those reachable from the root through slots whose key encodes |
| JsonEncoding.ParentOf | src/JContainers/src/collections/json_serialization.h:467-472 | The parent chain of a discovered object strictly decreases in discovery order, and the object's path is its parent's path and one more key |
| JsonSerializer.Serializer.FillKeyInfo | src/JContainers/src/collections/json_serialization.h:467-472 | Only the first holder of an object is noted |
| JsonSerializer.Serializer.PathToObject | src/JContainers/src/collections/json_serialization.h:527-578 | The loop up the parent chain ends and prints exactly the keys from the root to the object |
| JsonSerializer.Serializer.CreatePlaceholder | src/JContainers/src/collections/json_serialization.h:403-418 | An object seen first gets a new empty node and a place on the work list; one seen before gives a reference string |
| JsonSerializer.Serializer.CreateValue | src/JContainers/src/collections/json_serialization.h:474-521 | The value for each kind of item; a form without a string becomes null |
| JsonSerializer.Serializer.WriteSlot | src/JContainers/src/collections/json_serialization.h:420-465 | One slot written is one step of the writer's abstract walk |
| JsonSerializer.Serializer.WriteJson | src/JContainers/src/collections/json_serialization.h:386-401 | The breadth-first walk terminates on cyclic and shared graphs with every discovered object completely written |
| JsonDecoding.MarkWritten | src/JContainers/src/collections/json_serialization.h:61-71 | The mark of a form map is a node with typeName "JFormMap" under "__metaInfo", that of an integer map one with "JIntMap" |
| JsonDecoding.NameWritten | src/JContainers/src/collections/json_serialization.h:437-460 | A member has the name that its key has in a path, without the dot or the brackets; only forms without a string have none |
| JsonDecoding.ReferenceWritten | src/JContainers/src/collections/json_serialization.h:527-578 | A reference is the mark "__reference", a bar and the printed keys; to the root it is the mark and the bar alone |
| JsonDeserializer.Deserializer.MakePlaceholder | src/JContainers/src/collections/json_serialization.h:234-276 | The kind of the new container follows from the node and its type information, current or legacy; nothing is made for an unknown type |
| JsonDecoding.ShapeByMark | src/JContainers/src/collections/json_serialization.h:234-276 | In literal texts: typeName "JFormMap" gives a form map, "JIntMap" an integer map, any other nothing; "__formData" with null gives a form map; without a mark it is a map |
| JsonDeserializer.Deserializer.MakeItem | src/JContainers/src/collections/json_serialization.h:290-340 | Each kind of JSON value gives its item; a reference string gives a blank and is put on the list of slots to resolve |
| JsonDecoding.ValueRead | src/JContainers/src/collections/json_serialization.h:290-340 | In literal texts: what starts with "__formData" and a bar is a form, 0 if it does not decode, what starts with "__reference" and a bar a blank to be resolved, and other texts are themselves |
| JsonDecoding.LowBits | src/JContainers/src/collections/json_serialization.h:290-340 | An integer of JSON is cut to its low 32 bits |
| JsonDeserializer.Deserializer.FillMember | src/JContainers/src/collections/json_serialization.h:198-226 | One member is read, or passed over if its name does not decode or is type information; the reader's invariant is kept |
| JsonDecoding.NameRead | src/JContainers/src/collections/json_serialization.h:198-226 | "__metaInfo" and "__formData" are no keys; other names are map keys, integers with base 0, or form strings |
| JsonDeserializer.Deserializer.Fill | src/JContainers/src/collections/json_serialization.h:132-149 | The walk terminates; afterwards every node with an object has been read to the end |
| JsonDeserializer.Deserializer.ResolveReferences | src/JContainers/src/collections/json_serialization.h:156-181 | Whatever order the paths are taken in, slots whose path led to an object at the start hold that object, and objects not on the list stay as they were |
| JsonDeserializer.Deserializer.ObjectFromJson | src/JContainers/src/collections/json_serialization.h:132-154 | Null exactly for no JSON or a root of unknown type; otherwise everything is loaded and resolved, and earlier objects are untouched |
| JsonDecoding.ReadKeepsInv | src/JContainers/src/collections/json_serialization.h:183-232 | Reading one position keeps the reader's invariant: what is stored is the decoded value of what was read, objects are new and belong to one node each |
| JsonResolution.TargetStays | src/JContainers/src/collections/json_serialization.h:156-167 | A path that led to an object before resolution leads to the same object at any moment of it, although lookups run in the heap being changed |
| JsonResolution.BracketLosesReference | src/JContainers/src/collections/json_serialization.h:156-179 | A reference whose path goes through such a form key leaves the graph as it was |
| JsonResolution.ResolveStep | src/JContainers/src/collections/json_serialization.h:158-179 | Resolving one more path settles its slots and disturbs none settled before |
| Paths.ParsePrintedName | src/JContainers/src/collections/access.cpp:390-406 | A printed map key parses back exactly if it is not empty and has neither '.' nor '[' |
| Paths.ParsePrintedForm | src/JContainers/src/collections/access.cpp:408-442 | A printed form key parses back exactly if its string decodes to it and has no ']' |
| Paths.ParsePrinted | src/JContainers/src/collections/access.cpp:384-445 | Parsing undoes printing exactly for the names, indices and form keys that meet these conditions |
| Paths.BracketLosesWay | src/JContainers/src/collections/access.cpp:414-416 | A path through a form key whose string has a bracket, followed by neither '.' nor '[', leads nowhere in any graph |
| Paths.ParseBracket | src/JContainers/src/collections/access.cpp:408-442 | What a printed form key with a bracket parses to, exactly if its string decodes: the form, and all text behind the first bracket as the rest of the path |
| Paths.RetrieveRead | src/JContainers/src/collections/access.cpp:508-530 | If a dot and a name follow the bracket, the path is walked as the form key followed by that name |
| Paths.WalkRead | src/JContainers/src/collections/access.cpp:534-537 | So the printed path leads exactly where these keys lead |
| Paths.DottedInName | src/JContainers/src/collections/access.cpp:414-416 | Such are the forms of plugins named like "Mod [v2].esp" |
| Paths.BracketInName | src/JContainers/src/collections/access.cpp:414-416 | Such a plugin: its form strings decode, its path keys do not |
| Paths.TooLong | src/JContainers/src/collections/access.cpp:534-537 | One character more than a path may have: the last key is looked up without its last character |
| Paths.RetrievePrinted | src/JContainers/src/collections/access.cpp:508-530 | The recursive walk along a printed path ends at the container and key where following the keys one by one ends |
| Paths.WalkPrinted | src/JContainers/src/collections/access.cpp:534-537 | Within the length limit, walking the printed form of a key list gives an object exactly if following the keys does |
| Paths.KeysPrinted | src/JContainers/src/collections/json_serialization.h:527-578 | A printed path is "" for no keys and grows by ".name", "[index]" or "[form string]" with each key |
| Paths.ParseIndexText | src/JContainers/src/collections/access.cpp:408-436 | Text between brackets that is no form string is an integer with base 0, or the path does not parse |
| Paths.NotAPath | src/JContainers/src/collections/access.cpp:384-412 | The empty text, a lone "." or "[", "[]" and a dot without a name do not parse |
| Paths.SameWay | src/JContainers/src/collections/access.cpp:508-530 | In an isomorphic graph a path of any text ends at the image of the container where it ends in the original, with the same key |
| Paths.SameAtPaths | src/JContainers/src/collections/access.cpp:534-540 | Hence no path tells a graph that was copied or written and read back from the original: it reads the same scalar, or the image of the object |
| Collections.IsomorphicOnPaths | src/JContainers/src/collections/json_serialization.h:386-401 | The isomorphism of the round trip and of the deep copy is about exactly the objects at the end of some path from the root |
| Collections.IsomorphicReads | src/JContainers/src/collections/json_serialization.h:132-154 | What isomorphism means for one lookup: under any key the image has the same scalar or the image of the same object, with equal kinds, sizes and key spellings |
| Collections.GetPut | src/JContainers/src/collections/access.h:57-71 | Writing a slot changes what that slot reads and no other, in all four kinds of container |
| Collections.NamesWithoutCase | src/JContainers/src/collections/collections_types.h:314-321 | A value put into a map under a name is read under exactly the names of that length that differ in the case of ASCII letters only; all others read as before |
| Collections.FromBothEnds | src/JContainers/src/collections/collections_types.h:128-159 | Index -k of an array is the k-th item from the end, for reading and for writing; all other indices out of range give and change nothing |
| Collections.KeysFit | src/JContainers/src/collections/access.h:57-73 | Arrays and integer maps take integer keys only, maps names, form maps forms |
| Collections.SpellingStays | src/JContainers/src/collections/collections_types.h:274-276 | A key keeps the spelling under which it was first inserted, and no other slot comes or goes |
| Numerals.ReadDecimal | src/JContainers/src/collections/json_serialization.h:540-544 | Reading back a printed index or integer key gives the number, at the end of the text or before a ']' |
| Numerals.ReadHex | src/JContainers/src/forms/form_handling.h:85-89 | Reading back a printed local form id gives the number |
| Numerals.DigitsAre | src/JContainers/src/collections/json_serialization.h:457 | One more digit at the end multiplies by ten or sixteen and adds the digit, 0 to 9 and a to f |
| Numerals.ReadsHex | src/JContainers/src/forms/form_handling.h:172 | With base 0, 0x or 0X introduces a hexadecimal number |
| Numerals.ReadsOctal | src/JContainers/src/forms/form_handling.h:172 | A 0 introduces an octal number |
| Numerals.ReadsZero | src/JContainers/src/forms/form_handling.h:172 | Without hexadecimal digits behind it, 0x reads as the number 0 |
| Numerals.DigitsOnly | src/JContainers/src/forms/form_handling.h:172 | Only the digits and the letters a to f and A to F are hexadecimal digits |
| Numerals.LeadIsSkipped | src/JContainers/src/collections/access.cpp:420 | Blanks and a plus sign in front of a number are passed over, and a minus sign negates it |
| Numerals.Refused | src/JContainers/src/collections/access.cpp:419-427 | Text that does not begin with a digit is refused, as is what 32 bits cannot hold; for the unsigned reader a minus sign wraps |
| FormCodec.RoundTrip | src/JContainers/src/forms/form_handling.h:150-180 | Decoding undoes encoding exactly for the ids whose mod name is not empty, has no bar and resolves to the mod that owns them; if there is a bar, provided that names resolve to mods that bear them up to case |
| FormCodec.StringOfForm | src/JContainers/src/forms/form_handling.h:57-90 | The string of each form id, by ranges of ids: dynamic forms from 0xff000000 on, light plugins from 0xfe000000 on |
| FormCodec.FormOfString | src/JContainers/src/forms/form_handling.h:115-180 | The form of each string with one bar behind the mark: the bits that name the plugin are taken from it and not from the number |
| FormCodec.NoForm | src/JContainers/src/forms/form_handling.h:150-165 | What lacks the mark or the second bar is no form |
| FormCodec.TableRoundTrip | src/JContainers/src/forms/form_handling.h:57-90 | If every name of the load order is not empty, has no bar and resolves to its bearer, every id that encodes decodes to itself: dynamic, regular and light |
| FormCodec.LightTakenForRegular | src/JContainers/src/skse/jc_skse.cpp:176-200 | With light names taken from the list of regular ones, a light form decodes to a form of the regular plugin of that index |
| FormCodec.OneNameOnePlugin | src/JContainers/src/skse/jc_skse.cpp:156-200 | Of two plugins with the same name in the table, at most one has forms that decode to themselves |
| FormCodec.Recompose | src/JContainers/src/forms/form_handling.h:115-128 | Putting mod index and local id together again gives the id exactly if the name resolves to the mod that owns it |
| DeepCopy.Copying.DeepCopy | src/JContainers/src/collections/copying.h:45-60 | The copy is isomorphic to what was reachable from the origin; originals are unchanged and held by the same slots as before, all other objects are copies, one for each original, and no copy refers to an original |
| DeepCopy.Copying.UniqueCopy | src/JContainers/src/collections/copying.h:62-73 | An object is copied the first time only, and the walk's invariant is kept |
| DeepCopy.Copying.CopyItem | src/JContainers/src/collections/copying.h:89-94 | One item of a copy is redirected from the original child to the child's copy |
| DeepCopy.SameHolders | src/JContainers/src/collections/copying.h:89-94 | As copies refer to copies only, the reference counts of the originals are as before |
| DeepCopy.CopyDone | src/JContainers/src/collections/copying.h:45-60 | The walk's invariant with an empty work list is the isomorphism |
| CreativeAccess.AssignThenGet | src/JContainers/src/collections/access.h:149-171 | After a successful creative assignment the path gives the value, unless the slot written lies on the way |
| CreativeAccess.ScalarAssignThenGet | src/JContainers/src/collections/access.h:149-171 | For scalars that is exactly when |
| CreativeAccess.SelfLoop | src/JContainers/src/collections/access.h:149-171 | Where it fails: a map that holds itself under a name, and that name twice over as the path |
| CreativeAccess.AssignFrame | src/JContainers/src/collections/access.cpp:458-489 | Successful or not, no slot that was there changes but the target, and new slots of existing objects appear only for missing keys on the path |
| CreativeAccess.FreshPathSucceeds | src/JContainers/src/collections/access.cpp:474-485 | On a path of missing keys the assignment succeeds and creates one container of the fitting kind for each key but the last |
| CreativeAccess.CreativeIsConstant | src/JContainers/src/collections/access.cpp:514-530 | A constant walk in the graph that a creative walk leaves ends where the creative one did |
| CreativeAccess.Accessor.AccessValue | src/JContainers/src/collections/access.cpp:459-487 | The creative accessor: what is found, created or refused for one key |
| CreativeAccess.Accessor.Assign | src/JContainers/src/collections/access.h:149-166 | The assignment leaves the graph and the answer that the theorems are about |
| CreativeAccess.AssignSucceeds | src/JContainers/src/collections/access.h:149-166 | It answers true exactly if each key before the last leads to an object or is missing, with all behind it, from a map that takes it, and the last container takes the last key; so it does wherever the path already gave something |
| CreativeAccess.BlankIsLeft | src/JContainers/src/collections/access.cpp:459-487 | A path that stops parsing behind a missing key leaves a blank under that key and answers false |
| QueueClock.ModularTime | src/JContainers/src/object/autorelease_queue.h:232-249 | On values below 2^32-1 both operations are arithmetic modulo 2^32-1 and undo each other |
| QueueClock.SubtractUndoesAdd | src/JContainers/src/object/autorelease_queue.h:232-249 | Subtraction undoes addition exactly for times below 2^32-1 |
| QueueClock.AgeAfter | src/JContainers/src/object/autorelease_queue.h:252-254 | Ages count ticks, whether or not the counter wrapped in between |
| QueueClock.LeavesOnTime | src/JContainers/src/object/autorelease_queue.h:294-304 | The expiry test holds for a public push on exactly the fifth later tick and for a private or zeroed one on the next |
| Lifetime.RunIsSafe | src/JContainers/src/object/object_base.hpp:47-134 | In every run no slot or queue entry refers to a deleted object, ages are in 0..5, handles are unique, and every object with a handle has an owner |
| Lifetime.NeverOrphaned | src/JContainers/src/object/object_base.hpp:98-134 | An object that has had an owner has one for as long as it exists |
| Lifetime.StepFacts | src/JContainers/src/object/object_base.hpp:47-134 | Each single step keeps those facts |
| Lifetime.WhoDeletes | src/JContainers/src/object/object_base.hpp:73-90 | Only ticks and collections delete; a tick deletes only expired objects without user and stack references, and no remaining slot holds a deleted object |
| Lifetime.ReleaseFacts | src/JContainers/src/object/object_base.hpp:119-134 | Emptying slots leaves nobody without an owner who had one |
| Lifetime.DeleteFacts | src/JContainers/src/object/object_base.hpp:86-90 | Deleting an object that no slot holds leaves no reference to it and hands its children on |
| Lifetime.ProlongQueues | src/JContainers/src/object/object_base.hpp:146-149 | prolong_lifetime queues with age 0 if the object has a handle and with 5 otherwise |
| Lifetime.ZeroQueues | src/JContainers/src/object/object_base.hpp:151-154 | zero_lifetime gives a queued object the age 5 and does nothing to others |
| Lifetime.TesRetainQueues | src/JContainers/src/object/object_base.hpp:92-96 | A user reference gives a queued object the age 5 |
| Lifetime.TesReleaseQueues | src/JContainers/src/object/object_base.hpp:98-106 | The last of all references, given back by the user, queues with age 0 even without a handle |
| Lifetime.StackReleaseQueues | src/JContainers/src/object/object_base.hpp:108-117 | Given back by the stack, it queues with age 0 or 5, by whether there is a handle |
| Lifetime.UidQueues | src/JContainers/src/object/object_base.hpp:47-68 | The first uid() of an object that no slot holds queues it with age 0, whatever other owners it has |
| Lifetime.EraseQueues | src/JContainers/src/object/object_base.hpp:119-134 | Emptying slots queues exactly the objects that have no other owner left |
| Lifetime.ReplaceBySame | src/JContainers/src/intrusive_ptr.hpp:142-153 | Assigning to a slot the object that it holds queues nothing |
| Lifetime.EdgesAreSlots | src/JContainers/src/object/garbage_collector.h:50-58 | The edges the collector follows are exactly the slots |
| Lifetime.RootsAre | src/JContainers/src/object/garbage_collector.h:27-38 | Its roots are exactly the objects with user references and those in the queue; stack references make none |
| Reclamation.AllReclaimed | src/JContainers/src/object/autorelease_queue.h:290-319 | When calls stop, an acyclic graph without user and stack references, all of it owned, is gone after five ticks per object of its longest chain |
| Reclamation.ReclaimedIfAcyclic | src/JContainers/src/object/autorelease_queue.h:290-319 | Ticks alone empty such a graph exactly if it is acyclic: cycles stay as they are |
| Reclamation.GoneInFive | src/JContainers/src/object/autorelease_queue.h:290-319 | When calls stop, an object that only the queue owns is gone after five ticks, whatever references other objects have |
| Reclamation.LetGoOnTime | src/JContainers/src/object/autorelease_queue.h:166-174 | In every run, whatever is called in between: an object queued as public and not touched since is kept by four ticks and let go by exactly the fifth, one queued as private by the next; it is deleted then if only the queue owns it |
| Reclamation.AgesByTicks | src/JContainers/src/object/autorelease_queue.h:290-308 | In every run a queued object that is not retained, prolonged, zeroed or given its handle grows older by one with each tick and with nothing else |
| Reclamation.RetainedLeavesQueue | src/JContainers/src/object/object_base.hpp:92-96 | A user reference takes an object out of the queue with the next tick without its being deleted |
| Collection.GarbageIsUnreachable | src/JContainers/src/object/garbage_collector.h:41-73 | Garbage is exactly what no path from an object with user references or in the queue leads to |
| Graph.ReachSetIsPaths | src/JContainers/src/object/garbage_collector.h:41-73 | The least closed set over some roots is exactly what the paths from them lead to |
| Collection.CollectEffect | src/JContainers/src/object/garbage_collector.h:110-125 | In any visiting order: reachable objects keep slots, references and queue entries; each garbage object is deleted or ends empty, in no slot, and held by queue or stack |
| Collection.AnyOrder | src/JContainers/src/object/garbage_collector.h:110-125 | The whole state after a collection is the same whatever order the garbage is visited in |
| Collection.WhoSurvives | src/JContainers/src/object/garbage_collector.h:113-122 | Deleted is exactly the garbage that neither a slot nor the stack held before; queued, with age 0 or 5 by whether it has a handle, exactly what only slots held |
| Collection.VisitedAlive | src/JContainers/src/object/garbage_collector.h:113-122 | Each garbage object is visited while it is still there |
| Collection.NextGarbage | src/JContainers/src/object/garbage_collector.h:27-38 | The garbage of a collected context is exactly what only the stack holds |
| Collection.StackGarbage | src/JContainers/src/object/garbage_collector.h:27-38 | In terms of the state before: a second collection finds exactly the garbage of the first that the stack held |
| Collection.SecondFindsNothing | src/JContainers/src/object/garbage_collector.h:110-127 | Without stack references a second collection finds no garbage |
| GarbageCollector.FindRootObjects | src/JContainers/src/object/garbage_collector.h:27-38 | The roots are the objects with user references or in the queue |
| GarbageCollector.VisitReferenced | src/JContainers/src/object/garbage_collector.h:50-58 | Visiting one object marks its successors and keeps the tracing invariant |
| GarbageCollector.FindNonReachable | src/JContainers/src/object/garbage_collector.h:41-73 | The double-buffered work list terminates with exactly the registered objects to which no path from a root leads, on any graph |
| GarbageCollector.VisitGarbage | src/JContainers/src/object/garbage_collector.h:113-122 | One visit deletes the object or empties it, depending on whether it has owners by then |
| GarbageCollector.CollectGarbage | src/JContainers/src/object/garbage_collector.h:110-125 | The pass visits each garbage object once; the two counts are all of them and the survivors |
| GarbageCollector.Collect | src/JContainers/src/object/garbage_collector.h:25-128 | The whole collection is one step of the lifetime model, with the effect stated above |
| StoreState.OwnersSeen | src/JContainers/src/object/object_base.h:128-144 | All four counters are zero exactly if no slot, user, stack or queue owns the object |
| ObjectContext.Context.Make | src/JContainers/src/collections/collections_types.h:35-40 | A new object without owners and without a handle, known to the registry |
| ObjectContext.Context.TesRetain | src/JContainers/src/object/object_base.hpp:92-96 | One more user reference; a queued object becomes overdue |
| ObjectContext.Context.TesRelease | src/JContainers/src/object/object_base.hpp:98-106 | One user reference less, if there is one; an object left without owners is queued as public |
| ObjectContext.Context.StackRetain | src/JContainers/src/object/object_base.h:152 | One more stack reference |
| ObjectContext.Context.StackRelease | src/JContainers/src/object/object_base.hpp:108-117 | The same for stack references, queued as public only if it has a handle |
| ObjectContext.Context.Uid | src/JContainers/src/object/object_base.hpp:47-68 | A handle no other object has, given once; an object in no slot is queued |
| ObjectContext.Context.ProlongLifetime | src/JContainers/src/object/object_base.hpp:146-149 | The object is queued, or its age is reset |
| ObjectContext.Context.ZeroLifetime | src/JContainers/src/object/object_base.hpp:151-154 | A queued object becomes overdue |
| ObjectContext.Context.QueueProlong | src/JContainers/src/object/autorelease_queue.h:166-174 | An object is queued at most once, and its age follows from the wrapping clock |
| ObjectContext.Context.ReleaseSlot | src/JContainers/src/object/object_base.hpp:119-134 | A slot's release counts down the object it held and queues it if nothing else owns it |
| ObjectContext.Context.PutObject | src/JContainers/src/object/object_base.h:121-124 | A slot that comes to hold an object counts it up, and nothing else changes |
| ObjectContext.Context.ReplaceObject | src/JContainers/src/intrusive_ptr.hpp:142-153 | Assignment retains the new object before it releases the old one, so assigning an object to its own slot queues nothing |
| ObjectContext.Context.Erase | src/JContainers/src/collections/collections_types.h:264-272 | Slots emptied one by one, in any order, come to the same as emptied at once |
| ObjectContext.Context.DeleteSelf | src/JContainers/src/object/object_base.hpp:86-90 | The object leaves the registry with its handle, and its slots are emptied |
| ObjectContext.Context.AqueueRelease | src/JContainers/src/object/object_base.hpp:73-84 | The object is deleted exactly if the reference let go was its only one |
| ObjectContext.Context.LockedPhase | src/JContainers/src/object/autorelease_queue.h:291-309 | The locked phase deletes nothing: the queue becomes the order-preserving filter of the entries that have not expired, the others move to _toRelease |
| ObjectContext.FilterFront | src/JContainers/src/object/autorelease_queue.h:290-309 | The entries that stay and those that leave keep the order of the queue |
| ObjectContext.Context.ClearToRelease | src/JContainers/src/object/autorelease_queue.h:313-318 | The expired objects are let go one by one, in any order |
| ObjectContext.Context.Tick | src/JContainers/src/object/autorelease_queue.h:290-319 | One tick is one step of the lifetime model |
| ObjectContext.ReleaseMore | src/JContainers/src/object/object_base.hpp:119-134 | Emptying slots one after the other comes to the same as emptying them at once |
| ObjectContext.CountersCoherent | src/JContainers/src/object/object_base.h:56-60 | Between two calls every counter equals what it counts, none is negative, nothing is queued twice, no reference dangles, queued ages are in 0..5, and an object with a handle has an owner |
| ObjectContext.HandlesCoherent | src/JContainers/src/object/object_registry.h:41-74 | Between two calls the table holds exactly the handles of the objects, no two objects share one, and the free ids are exactly the handles nobody has |
| Registry.ObjectRegistry.RegisterNewObjectId | src/JContainers/src/object/object_registry.h:48-57 | The new handle was free; free ids stay exactly the complement of the table, and another id can be had exactly if one is left |
| Registry.ObjectRegistry.RemoveObject | src/JContainers/src/object/object_registry.h:64-74 | The object and its handle go, and the handle is free again |
| Registry.ObjectRegistry.GetObject | src/JContainers/src/object/object_registry.h:108-118 | An object is returned exactly if it carries the handle, and nothing for the null handle and for handles nobody has |
| Registry.ObjectRegistry.Rebuild | src/JContainers/src/object/object_registry.h:149-164 | Rebuilding the table from the objects on load gives back the same table |
| Registry.IndexDistinct | src/JContainers/src/object/object_registry.h:48-57 | No two objects share a handle |
| IdGenerator.Generator.NewId | src/JContainers/src/object/id_generator.h:70-84 | Hands out the id at the cursor, which goes on to the next free one above, or else to the least; takes exactly that id out of the free ids, and the cursor is valid exactly if an id is left |
| IdGenerator.Generator.ReuseId | src/JContainers/src/object/id_generator.h:119-153 | Adds exactly the id to the free ids, by insertion, growth or merging; the cursor stays a valid position exactly if it was one |
| IdGenerator.LastIdAndBack | src/JContainers/src/object/id_generator.h:133-138 | The last id taken and given back is free but cannot be handed out again |
| IdGenerator.Generator.IsFreeId | src/JContainers/src/object/id_generator.h:93-100 | Membership in the free ids |
| IdGenerator.Generator.IsValid | src/JContainers/src/object/id_generator.h:102-117 | On separated ranges the self-check reports whether the cursor is valid |
| IdGenerator.Generator.constructor | src/JContainers/src/object/id_generator.h:86-91 | All ids from the least to the greatest are free |
| FormKeys.OneLiveEntry | src/JContainers/src/forms/form_observer.hpp:261-296 | A form has at most one entry that is held and not deleted |
| FormKeys.WatchedAgain | src/JContainers/src/forms/form_observer.hpp:261-296 | A form watched again gets the entry it had, and a new one after the last reference to it went away or the form was deleted |
| FormKeys.DeletedTogether | src/JContainers/src/forms/form_observer.hpp:157-193 | Deleting a form expires all references to it at once and no other |
| FormKeys.NeverRevives | src/JContainers/src/forms/form_observer.hpp:157-193 | In every run an expired entry stays expired |
| FormKeys.RunIsGood | src/JContainers/src/forms/form_observer.h:118-129 | However watching, deletion, insertion and removal are interleaved, the key sequence stays sorted by raw id and expiry, and no live key occurs twice |
| FormKeys.ExpiryKeeps | src/JContainers/src/forms/form_observer.h:118-129 | Keys that expire while they are in the map leave it sorted |
| FormKeys.OrderIs | src/JContainers/src/forms/form_observer.h:118-129 | In a sorted key sequence ids do not decrease, and of keys with one id only the first can be live |
| FormKeys.LookupsStayRight | src/JContainers/src/collections/collections_types.h:346-355 | In every run looking up an id other than 0 finds the one live key exactly if there is one |
| FormKeys.FindZero | src/JContainers/src/collections/collections_types.h:346-355 | Looking up id 0 gives the first key if that one is expired |
| FormKeys.ExpiredPileUp | src/JContainers/src/forms/form_observer.h:118-122 | Each round of watching, inserting and deleting a form leaves one more expired key of it |
| FormKeys.HandleRoundTrip | src/JContainers/src/forms/form_handling.h:13-23 | Form handles and ids turn into each other, and nothing else passes for a form handle |
| FormMap.SetThenLookup | src/JContainers/src/collections/collections_types.h:274-276 | A value put under a live key is found by its id, and what other ids lead to stays the same |
| FormMap.FormObserver.WatchForm | src/JContainers/src/forms/form_observer.hpp:261-296 | The entry of a form is found or, if its weak pointer ran out or it was deleted, made anew |
| FormMap.FormObserver.OnFormDeleted | src/JContainers/src/forms/form_observer.hpp:157-193 | Handles of other things are ignored; the watched entry is marked |
| FormMap.FormObserver.RemoveExpiredForms | src/JContainers/src/forms/form_observer.hpp:122-130 | Entries nobody holds leave the table; all that stay are held |
| FormKeys.RemoveExpiredLeaves | src/JContainers/src/forms/form_observer.hpp:122-130 | Exactly the table entries whose target is held stay |
| FormMap.Halving | src/JContainers/src/collections/collections_types.h:349-353 | The halving search ends at the first key that is not less, although keys expired in place |
| FormMap.Descend | src/JContainers/src/collections/collections_types.h:274-276 | So does a descent that probes anywhere, as that in a tree of any shape |
| FormMap.Map.Set | src/JContainers/src/collections/collections_types.h:274-276 | The key sequence stays sorted |
| FormMap.Map.Find | src/JContainers/src/collections/collections_types.h:346-355 | The binary search finds something for an id other than 0 exactly if there is a live key of that form |
| FormMap.Map.Erase | src/JContainers/src/collections/collections_types.h:264-268 | Erases key and item that the lookup finds, keeps the others and their order |
| FormMap.EraseThenLookup | src/JContainers/src/collections/collections_types.h:264-268 | The form whose key was erased is no longer found, and what other ids lead to stays the same |
| LineWrap.WrapString | src/JContainers/src/api_3/string_wrapper.cpp:336-396 | Null exactly for invalid input; otherwise the rendered lines of the first cut after the last round, which have the words of the text, in order, and no others |
| LineWrap.InitialSet | src/JContainers/src/api_3/string_wrapper.cpp:258-304 | The lines are a contiguous partition of the text in which every break is at a blank or the end, and each line ends where its turn of the loop ends |
| LineWrap.CharactersPerLineIs | src/JContainers/src/api_3/string_wrapper.cpp:36-41 | The target length: times text length and line width together it is their product |
| LineWrap.LineEndIs | src/JContainers/src/api_3/string_wrapper.cpp:269-300 | Of the nearest blanks on both sides of the target the line ends at the left one exactly if it is nearer than 6/5 of the way to the right one and not the beginning; short rests end with the text |
| LineWrap.Blanks | src/JContainers/src/api_3/string_wrapper.cpp:218-251 | Which characters are blanks; the en space 0x2002 is none |
| LineWrap.EndsExactly | src/JContainers/src/api_3/string_wrapper.cpp:269-300 | Computed over rationals, the first cut ends exactly if text and line width have at least two characters or there is no blank |
| LineWrap.SingleBlank | src/JContainers/src/api_3/string_wrapper.cpp:269-300 | Computed over rationals, the cut of a text of one blank never ends |
| LineWrap.CoveredWords | src/JContainers/src/api_3/string_wrapper.cpp:253-256 | Cutting the text at blanks keeps its words |
| LineWrap.MoveBack | src/JContainers/src/api_3/string_wrapper.cpp:306-332 | A move that changed something is undone exactly by the opposite move |
| LineWrap.MoveWords | src/JContainers/src/api_3/string_wrapper.cpp:100-144 | A move keeps the sequence of all words |
| LineWrap.MoveTransfers | src/JContainers/src/api_3/string_wrapper.cpp:100-144 | A move carries exactly one word over one line boundary |
| LineWrap.MoveFirst | src/JContainers/src/api_3/string_wrapper.cpp:100-144 | The first line exchanges its last word for the first of the second; a move changes nothing exactly if there is no word or no neighbour |
| LineWrap.LineSet.IncrLength | src/JContainers/src/api_3/string_wrapper.cpp:100-121 | The line grows by its neighbour's word, the first line at the expense of the second |
| LineWrap.LineSet.DecrLength | src/JContainers/src/api_3/string_wrapper.cpp:123-144 | The opposite move |
| LineWrap.TryLine | src/JContainers/src/api_3/string_wrapper.cpp:374-384 | A word moves towards the average length, and a move that makes the lines less even is taken back completely |
| LineWrap.TriedTowardsAverage | src/JContainers/src/api_3/string_wrapper.cpp:374-384 | In its turn a line shorter than the average never loses words, and any other never gains any |
| LineWrap.TriedIsLocalOptimum | src/JContainers/src/api_3/string_wrapper.cpp:374-384 | A turn leaves the lines as they are exactly if there is no word to move towards the average or moving it raises the variance; otherwise it moves that word |
| LineWrap.QuietRound | src/JContainers/src/api_3/string_wrapper.cpp:372-386 | No turn of a round changes anything exactly if for every line there is no word to move towards the average or moving it raises the variance |
| LineWrap.LevelRound | src/JContainers/src/api_3/string_wrapper.cpp:372-391 | A round leaves the variance as it was exactly if none of its turns found a move that lowers it |
| LineWrap.WordThereAndBack | src/JContainers/src/api_3/string_wrapper.cpp:372-386 | A round that ends with the lines it began with need not be quiet: for lines of one and of two equal words of one character the word goes there and back |
| LineWrap.CharCountIs | src/JContainers/src/api_3/string_wrapper.cpp:44-56 | The length of a line is that of its words set with one blank between two |
| LineWrap.AverageIs | src/JContainers/src/api_3/string_wrapper.cpp:163-171 | Average length times number of lines is the number of characters in all lines |
| LineWrap.EvenLines | src/JContainers/src/api_3/string_wrapper.cpp:146-153 | The variance is never negative, and zero exactly if all lines have the average length |
| LineWrap.TwoLinesVariance | src/JContainers/src/api_3/string_wrapper.cpp:146-153 | Of two lines it is the square of half their difference |
| LineWrap.BalancedKeeps | src/JContainers/src/api_3/string_wrapper.cpp:366-391 | The balancing loop keeps the words in order and never increases the variance of the line lengths |
| LineWrap.Balance | src/JContainers/src/api_3/string_wrapper.cpp:366-391 | The loop over the code's own lines and operation object computes exactly those rounds |
| LineWrap.BalancedIs | src/JContainers/src/api_3/string_wrapper.cpp:366-393 | These are whole rounds, the last one being the first that lowers the variance by less than 0.00001, or the fortieth |
| LineWrap.RenderAppend | src/JContainers/src/api_3/string_wrapper.cpp:59-67 | A rendered line is its words one after the other, each with a space behind it |

## Left out

- Threads, locks and timers: each call and each tick is one atomic step; interleavings inside a call are not modelled.
- The engine and its mod tables: a load order is any value of `FormCodec.Mods`; theorems that need something of it say so about the forms at hand.
- UTF-8 decoding and encoding, JSON text (jansson), Boost archives and file access: texts are sequences of characters or code points, JSON is a table of nodes. JSON booleans, which are read as 0 or 1 and never written, are not modelled.
- Floating point: a real item is an opaque token, so NaN and rounding are not modelled; the line wrapper is computed over rationals. In single precision 1 + 1/width rounds to 1 from a width of 2^24 on (and likewise for that many characters at width 1), so there the first cut ends where `LineWrap.EndsExactly` says it does not.
- Int32 overflow of the reference counters, which are unbounded here.
- A build with NDEBUG: the two sprintf_s calls at json_serialization.h:457 and 542 stand inside assert and are taken to run.
- Strings with a NUL inside, which the JSON library would cut.
- Reading past a path without a closing ']' (access.cpp:413-440), which has no defined behaviour; the model takes such a path as one that does not parse.
- A missing typeName in type information, which the source compares through a null pointer; the model takes it as an unknown type.
- `public_id` (object_base.hpp:12-26), which is for tests only and gives a handle without queueing the object.
- Teardown by nullifying references (`u_clearState`) and the time before contexts are set on load; runs start after initialisation.
- ObjectContext.Context.Uid: requires, for an object without a handle, an id generator whose cursor can be dereferenced (see `IdGenerator.Generator.ReuseId`).
- Registry.ObjectRegistry.RegisterNewObjectId: requires the same.
- IdGenerator.Generator.NewId: requires a cursor that can be dereferenced, as the source asserts.
- The position of a slot inside its container in the lifetime model: slots have identities, and a container's slots are emptied in an unspecified order, which covers all orders.
- A container of `ObjectContext` holds object slots only; other items do not touch lifetimes. Items of all kinds are in `Collections`.
- Keys of form maps in `Collections` are form ids; that they are references that may expire is modelled in `FormKeys` and `FormMap` alone, so JSON and deep copy are about forms that do not expire meanwhile.
- LineWrap.WrapString: requires what `LineWrap.EndsExactly` shows to be needed for the source's loop to end.
- JsonSerializer.Serializer.WriteJson: of two form keys of one map that have the same string, the later value replaces the earlier one; the JSON library then frees the earlier value, while the table of nodes only forgets the reference to it.
- JsonRoundTrip.WriteAndRead: isomorphism is stated for portable graphs; for scalars, keys and path names the conditions are shown to be exact, for the length of a path only sufficient, since a cut path can lead to the right object by accident.
- The older `path_resolving::resolve` with '@' operators, array helpers with negative start positions, Papyrus bindings and the Lua side: easy or outside these promises.
