# gz-omni core, modelled in Dafny

gz-omni connects Gazebo (Ignition) simulations with NVIDIA Omniverse: USD
stages live on a Nucleus server, and a set of samples and bridges move
geometry and poses between the two worlds. This project models the
sequential logic underneath that glue and proves what it promises:

- **omnicli**: the Microsoft-C-runtime command-line tokenizer, the
  case-insensitive command dispatch, the interactive loop, access-flag
  formatting and parsing, the `setacls` list merge, listing-size scaling,
  the `cd`/`push`/`pop` URL stack and the log filter that hides ping
  traffic (`Tokenizer`, `OmniCli`).
- **Transform ops**: an xformable's op stack, the `GetOp` extraction (last op
  of each kind wins, with defaults) and the `SetOp` create-or-reuse rule with
  float narrowing (`XformOps`); the live-edit loops of the C++ and Python
  hello-world samples that step an angle by 15 degrees and rewrite the stack as
  translate, rotate, scale (`LiveEdit`); the samples' argument handling, URL
  checks and box mesh (`HelloWorld`).
- **Ignition to USD**: `removeDash`, prim naming, face counts per primitive
  type, submesh selection and conversion (`MeshConvert`), the geometry
  attachment of `IgnitionGeometry` and of the rendering plugin's
  `OmniverseGeometry`, the Fuel cache search paths of `UpdateMesh`
  (`FuelMesh`) and `NameToSdfPath` (`SdfPath`).
- **USD to SDFormat**: the append-only SDFormat 1.7 writer and the resync and
  changed-info loops of the header listener (`SdfWriter`), and the listener
  of the `.cpp` with its prim walk, ancestor walk, joint table and
  revolute-joint publishers (`NoticeListener`).
- **Model registries**: the `Scene` maps with their pose and joint callbacks
  and the reconciliation pass of the model worker (`SceneRegistry`), and the
  pose map and stage edits of the `ignition_live` program (`IgnitionLive`),
  over shared map lemmas (`Maps`).
- **Small result types**: `MaybeError` of both headers (`MaybeError`), the
  client-result check, `Stat` and the lock guard (`OmniClient`).
- **USDA watcher**: the export debounce over a whole-second clock, the stat
  callbacks and the quit-key loop (`UsdaWatcher`).
- **Build-tools discovery**: `find_vs`, `find_msvc_ver`, the SDK environment
  scan and the host-dependency path substitution (`BuildTools`).

Where the source updates state in place (the xformable's op stack, the
scene registry, the listener's tables, the watcher's times, the host
dependency tree) the model is a class whose methods are proved against
specification functions; loops are `while` loops with invariants. Pure
helpers are functions, and the properties relating several calls are
lemmas. Both copies of a duplicated helper (`endsWith` and `removeDash` in
`IgnitionGeometry.cpp` and `Mesh.cpp`; the operations common to `Scene.cpp`
and `SceneImpl.cpp`) are modelled by one definition.

## Model

| member | source | states |
|---|---|---|
| Tokenizer.Tokenize | source/omnicli/omnicli.cpp:79-145 | the loop over the line with its mutable token, quote, blank and backslash state yields exactly the arguments of the character-by-character scanner `Tokens` |
| Tokenizer.IgnoresAfterNewline | source/omnicli/omnicli.cpp:86-91 | everything from the first newline on does not affect the arguments |
| Tokenizer.SkipsLeadingBlank | source/omnicli/omnicli.cpp:92-102 | spaces and tabs before an argument are skipped |
| Tokenizer.ScanBackslashes | source/omnicli/omnicli.cpp:103-107 | a run of backslashes only counts them, adding nothing to the argument yet |
| Tokenizer.BackslashesThenQuote | source/omnicli/omnicli.cpp:108-121 | n backslashes then a quote give n/2 backslashes; an odd run then adds a literal quote, an even run toggles quoting |
| Tokenizer.BackslashesThenOther | source/omnicli/omnicli.cpp:122-134 | backslashes not followed by a quote are copied literally before the next character |
| Tokenizer.TrailingBackslashes | source/omnicli/omnicli.cpp:136-143 | backslashes at the end of the line are copied into the last argument |
| Tokenizer.CommandLineRoundTrip | source/omnicli/omnicli.cpp:65-145 | quoting each argument (escaping backslashes and quotes) and tokenizing the joined line gives the arguments back, except that an empty last argument is dropped |
| Tokenizer.EmptyQuotedArguments | source/omnicli/omnicli.cpp:127-143 | an inner `""` is an empty argument (`"" x` gives ["", "x"]) while a final one is dropped (`x ""` gives ["x"]) |
| OmniCli.IEqualIffSameLower | source/omnicli/omnicli.cpp:59-63 | `iequal` holds exactly when the lower-cased names are equal |
| OmniCli.IEqualEquivalence | source/omnicli/omnicli.cpp:59-63 | `iequal` is reflexive, symmetric and transitive |
| OmniCli.Run | source/omnicli/omnicli.cpp:1149-1164 | no arguments fail; otherwise the handler of the first table entry `iequal` to the first argument runs, and an unknown name fails |
| OmniCli.Interactive | source/omnicli/omnicli.cpp:1240-1274 | the read-eval loop runs every non-empty tokenized line up to a quit word, ending with success on `quit`/`exit`/`q` and failure at the end of input |
| OmniCli.SessionRunsAreCommands | source/omnicli/omnicli.cpp:1249-1262 | no argument list handed to `run` is empty or starts with a quit word |
| OmniCli.RetcodeAcceptsMoreThanCheck | source/omnicli/omnicli.cpp:147-158 | `resultToRetcode` succeeds for exactly the results `CheckClientResult` accepts plus `OkNotYetFound` |
| OmniCli.AccessTextCases | source/omnicli/omnicli.cpp:180-212 | the eight texts: the present flags in the order Read, Write, Admin joined by ", ", or "None" |
| OmniCli.GetAccessString | source/omnicli/omnicli.cpp:180-212 | the appending method produces the access text |
| OmniCli.AccessTextInjective | source/omnicli/omnicli.cpp:180-212 | different flag sets are never listed the same way |
| OmniCli.ParseAccess | source/omnicli/omnicli.cpp:744-764 | the letter loop gives the flags and the remove mark, or fails at an unknown letter |
| OmniCli.AccessOfMeaning | source/omnicli/omnicli.cpp:744-764 | the access argument is accepted iff every letter is A, W, R or '-' in either case, and each flag (and removal) is set iff its letter occurs |
| OmniCli.MergeAcls | source/omnicli/omnicli.cpp:793-819 | the merge loop drops every entry with the name, then appends the new entry, or fails when '-' names an absent entry |
| OmniCli.WithoutMembers | source/omnicli/omnicli.cpp:795-807 | an entry survives the filter iff it was listed under another name |
| OmniCli.MergedEntryForName | source/omnicli/omnicli.cpp:793-819 | after a successful merge the name has exactly the requested entry (or none after '-'), and other entries are those listed before |
| OmniCli.WithoutIdempotent | source/omnicli/omnicli.cpp:795-807 | filtering a name twice is filtering it once |
| OmniCli.MergeTwice | source/omnicli/omnicli.cpp:793-819 | setting the same access twice gives the list of setting it once |
| OmniCli.SetAclsCommand | source/omnicli/omnicli.cpp:730-833 | too few arguments, an unknown access letter, a failed ACL request and removing an absent name all fail without sending a list; otherwise the merged list is sent and the exit code follows the store result |
| OmniCli.ScaleSize | source/omnicli/omnicli.cpp:232-253 | strict thresholds choose GB, MB, KB or B, the size is divided with truncation, and the shown number lies in the unit's range |
| OmniCli.DirectoryArg | source/omnicli/omnicli.cpp:426-430 | the argument gets a trailing '/' exactly when it lacks one |
| OmniCli.DirectoryArgIdempotent | source/omnicli/omnicli.cpp:426-430 | adding the trailing '/' twice is adding it once |
| OmniCli.Shell.Cd | source/omnicli/omnicli.cpp:418-455 | without an argument the current folder is printed and the stack kept; an empty combined URL fails; otherwise `cd` replaces the top URL and `push` adds one |
| OmniCli.Shell.Pop | source/omnicli/omnicli.cpp:457-461 | `pop` drops the top URL, if any, and succeeds |
| OmniCli.PingCommandHidden | source/omnicli/omnicli.cpp:1206-1227 | a log message carrying the ping command is never printed |
| OmniCli.TokenWithoutCapabilitiesHidden | source/omnicli/omnicli.cpp:1217-1227 | a message with a token and no server capabilities is treated as a ping reply and not printed |
| MaybeError.Streamed | source/ignition_live/Error.hpp:33-38 | an error streams exactly its message |
| MaybeError.FromValueIsOk | source/ignition_live/Error.hpp:47-57 | a value built from T converts to true and `Value()` gives it back |
| MaybeError.FromErrorIsNotOk | source/ignition_live/Error.hpp:48-60 | a value built from the error type converts to false and `Error()` gives it back |
| MaybeError.OkExactlyWhenValue | source/ignition_live/Error.h:43-62 | the conversion is true exactly when a value (not an error) is held, and the holder never changes after construction |
| OmniClient.Stat | source/ignition_live/OmniClientpp.cpp:41-60 | `Stat` starts as the Error result; a result that fails `CheckClientResult` (true only for Ok and OkLatest) becomes the error, a passing one makes it hold the entry |
| OmniClient.OmniverseLock.Release | source/ignition_live/OmniClientpp.cpp:31-34 | the destructor unlocks the URL the object holds |
| OmniClient.LockedScope | source/ignition_live/OmniClientpp.cpp:26-34 | a lock's lifetime locks and then unlocks the same URL, and nothing else |
| XformOps.Stored | source/ignition_live/SetOp.hpp:41-44 | a float op stores the narrowed vector, any other precision the double one |
| XformOps.LastOf | source/ignition_live/GetOp.hpp:44-60 | the handle is the last op of the type, or none when no op has it |
| XformOps.ScanOps | source/ignition_live/GetOp.hpp:33-62 | the scan over the ordered ops yields the extraction: per kind the last op's handle and value, defaults (0,0,0), (0,0,0), (1,1,1) otherwise |
| XformOps.ExtractIgnoresOtherTypes | source/ignition_live/GetOp.hpp:46-60 | ops of a type the scan does not look for change nothing |
| XformOps.ExtractLastWins | source/ignition_live/GetOp.hpp:44-60 | appending an op of a kind makes it the reported op and value |
| XformOps.GetOpIgnoresRotateZYX | source/ignition_live/GetOp.hpp:52-55 | rotation is matched on RotateXYZ only: a stack of ZYX rotations leaves the handle invalid and the rotation zero |
| XformOps.ExtractDefaults | source/ignition_live/GetOp.hpp:35-37 | a stack without the three kinds reads as the defaults with invalid handles |
| XformOps.Xformable.AddXformOp | source/ignition_live/SetOp.hpp:38 | adding an op appends one op of the type and precision without a value |
| XformOps.Xformable.SetXformOpOrder | src/main.cc:723-727 | the op stack becomes the chosen ops in the chosen order |
| XformOps.Xformable.SetOp | source/ignition_live/SetOp.hpp:32-45 | an invalid handle gets exactly one new op of the requested type and precision; a valid one is reused with no op added; the value is narrowed iff the op's own precision is float |
| XformOps.RewrittenKeepsOp | source/ignition_live/SetOp.hpp:36-44 | a reused op keeps its type and precision (the requested precision is ignored) and stores the value at that precision |
| LiveEdit.NextAngleValid | src/main.cc:650-652 | each 't' keeps the angle a multiple of 15 in [0, 360), in both samples |
| LiveEdit.DialectsAgree | source/pyHelloWorld/helloWorld.py:321 | the Python update `(angle + 15) % 360` agrees with the C++ add-and-reset exactly for angles up to 345 |
| LiveEdit.IterateClosedForm | src/main.cc:650-652 | after n presses the angle is (a + 15n) mod 360 and still valid |
| LiveEdit.AnglePeriod | src/main.cc:650-652 | the box returns to its starting angle after 24 presses and not before |
| LiveEdit.TransformStep | src/main.cc:658-727 | one 't' rewrites the op stack to the step specification: translate, rotateZYX, scale in that order |
| LiveEdit.StepShape | src/main.cc:723-727 | after a step the stack is exactly translate, rotateZYX, scale, each holding a value |
| LiveEdit.StepReadBack | src/main.cc:673-693 | reading the stack back gives the old position plus the offset, the old rotation with its second component set to the angle, and the old scale |
| LiveEdit.StepOnEmptyStack | src/main.cc:718-720 | on an empty stack a step creates translate in double and rotateZYX and scale in float precision |
| LiveEdit.TwoStepsAccumulate | src/main.cc:692-693 | two steps add both offsets to the position and keep the last angle |
| LiveEdit.RunLiveEdit | src/main.cc:625-742 | the key loop leaves the stack and the events the session specification gives, stopping at the first 'q' or escape |
| LiveEdit.OtherKeysChangeNothing | src/main.cc:646-740 | keys other than 't' change neither the stack nor the angle |
| LiveEdit.HintsOnlyInPython | source/pyHelloWorld/helloWorld.py:375-379 | the C++ loop never prints a hint; the Python loop prints exactly as many hints as there are keys before the first quit key that are neither 't' nor a quit key |
| LiveEdit.SessionAngleValid | src/main.cc:650-652 | over a whole session the angle stays valid |
| LiveEdit.OccurrencesAppend | src/main.cc:644 | counting the occurrences of an event distributes over concatenated event logs |
| LiveEdit.OneWaitPerKey | src/main.cc:641-644 | without a quit key the loop waits for pending updates once per key read |
| HelloWorld.CppUrlCheckIsStricter | src/main.cc:745-757 | the C++ URL check accepts a subset of what the Python check accepts, the difference being Omniverse URLs lacking a host or a path |
| HelloWorld.ParseArgs | src/main.cc:786-838 | the argument loop yields the warnings and outcome of the parse specification |
| HelloWorld.MissingValueOnlyAtEnd | src/main.cc:797-833 | a missing value is reported only when the last argument is `-p` or `-e` (or their long forms) |
| HelloWorld.WarningsAccumulate | src/main.cc:786-838 | warnings are only appended; earlier ones stay at the front |
| HelloWorld.LiveModeHasCause | src/main.cc:786-838 | the loop ends in live mode only if some argument is `-l`, `--live`, `-e` or `--existing` |
| HelloWorld.HelpHasCause | src/main.cc:786-838 | the loop asks for the usage text only if some argument is `-h` or `--help` |
| HelloWorld.ExitCodeHasCause | src/main.cc:786-831 | the program returns 0 before running only when some argument is `-h`/`--help`, returns -1 only when the last argument is a flag missing its value, and goes on otherwise |
| HelloWorld.LiveEditHasCause | src/main.cc:883-884 | the live-edit session runs only when a box mesh was made and some argument asked for live mode |
| HelloWorld.ExistingWarningShowsDestination | src/main.cc:817-833 | `-e` with a rejected URL still opens that stage live, and the warning names the destination path |
| HelloWorld.EmptyExistingStageDiffers | source/pyHelloWorld/helloWorld.py:393 | `-e ""` turns live mode on in C++ but not in Python |
| HelloWorld.CreateBox | src/main.cc:326-383 | the mesh holds the box points, indices and normals, twelve face counts of 3, the single display colour (0.463, 0.725, 0) and the `st` primvar copied from the UV table |
| HelloWorld.BoxIsWellFormed | src/main.cc:297-301 | 24 points, normals and UVs, 36 indices all in range, face counts summing to the index count |
| Strings.ContainsInfix | source/ignition_live/FUSDNoticeListener.hpp:175-177 | `find` succeeds on every string that has the searched text as an infix |
| Strings.HasSuffixIffSplit | source/ignition_live/IgnitionGeometry.cpp:39-42 | `endsWith(s, t)` holds exactly when `s` is some prefix followed by `t`; the empty suffix always matches |
| Strings.Replace | src/Utils.hh:31-33 | `std::replace` keeps the length of the string |
| Strings.ReplaceAt | src/Utils.hh:31-33 | position by position, the replaced character becomes the new one and every other character stays |
| Strings.ReplaceRemoves | src/Utils.hh:31-33 | after replacing a character by a different one, none of it is left |
| Strings.ReplaceIdempotent | src/Utils.hh:31-33 | replacing twice is replacing once |
| Strings.ReplaceAppend | src/Utils.hh:31-33 | replacing distributes over concatenation |
| Maps.UpsertedKeys | source/ignition_live/FUSDNoticeListener.cpp:173-182 | after assigning entries with `m[k] = v`, the keys are the old keys plus the entries' keys |
| Maps.UpsertedLastWins | source/ignition_live/FUSDNoticeListener.cpp:173-182 | with assignment, the last entry for a key sets its value |
| Maps.UpsertedOthers | source/ignition_live/FUSDNoticeListener.cpp:173-182 | with assignment, a key no entry names keeps its value |
| Maps.InsertedKeys | source/ignition_live/ignition_live.cpp:241 | after `insert` of entries, the keys are the old keys plus the entries' keys |
| Maps.InsertedKeeps | source/ignition_live/ignition_live.cpp:241 | `insert` never overwrites a key already present |
| Maps.InsertedFirstWins | source/ignition_live/ignition_live.cpp:241 | with `insert`, a new key takes the value of its first entry |
| MeshConvert.RemoveDashMeaning | source/ignition_live/IgnitionGeometry.cpp:44-49 | `removeDash` keeps the length, leaves no '-', keeps every other character in place, and is idempotent |
| MeshConvert.PrimNameOfUnnamed | source/ignition_live/IgnitionGeometry.cpp:344-350 | a submesh without a name lands on the dash-free path itself (the trailing '/' is removed) |
| MeshConvert.PrimNameJoins | source/ignition_live/IgnitionGeometry.cpp:344-350 | a name not ending in '/' is joined to the path with exactly one '/', both dash-free |
| MeshConvert.VerticesPerFace | source/ignition_live/IgnitionGeometry.cpp:313-336 | a supported primitive type has a positive number of vertices per face |
| MeshConvert.Uniform | source/ignition_live/IgnitionGeometry.cpp:341-342 | n faces, every count equal to the vertices per face |
| MeshConvert.SumUniform | source/ignition_live/IgnitionGeometry.cpp:341-342 | n uniform counts of k sum to n times k |
| MeshConvert.FaceVertexCounts | source/ignition_live/IgnitionGeometry.cpp:313-342 | the switch and loop produce the face-count specification: n faces of 1 for points, n/2 of 2 for lines, n/3 of 3 for triangles, none otherwise |
| MeshConvert.FaceCountsCoverIndices | source/ignition_live/IgnitionGeometry.cpp:317-328 | the faces cover all indices but a remainder smaller than one face; points cover every index |
| MeshConvert.FaceCountsSupported | source/ignition_live/IgnitionGeometry.cpp:329-335 | only points, lines and triangles are converted |
| MeshConvert.FilterActive | source/ignition_live/IgnitionGeometry.cpp:233-250 | filtering is on iff there are several submeshes and the lower-cased path contains some lower-cased submesh name |
| MeshConvert.FilterKeepsNamedSubmesh | source/ignition_live/IgnitionGeometry.cpp:267-279 | filtering never skips every submesh, and with filtering off every submesh is converted |
| MeshConvert.FlipV | source/ignition_live/IgnitionGeometry.cpp:292-296 | each texture coordinate keeps u and gets 1 - v |
| MeshConvert.ConvertSubmesh | source/ignition_live/IgnitionGeometry.cpp:280-355 | the copy loops and face counts give the converted-mesh specification, or none for an unsupported primitive |
| MeshConvert.ConvertedKeepsGeometry | source/ignition_live/IgnitionGeometry.cpp:280-303 | a converted mesh keeps the submesh's points, indices and normals, has its UVs flipped and one count per whole face |
| IgnitionGeometry.GeometryTypeNames | source/ignition_live/IgnitionGeometry.cpp:63-85 | the seven named types get distinct names other than "Unknown"; ellipsoid and the rest get "Unknown" |
| IgnitionGeometry.MeshesFromSucceeds | source/ignition_live/IgnitionGeometry.cpp:252-381 | the mesh branch succeeds iff every selected submesh has a supported primitive type |
| IgnitionGeometry.MeshesFromAreSelected | source/ignition_live/IgnitionGeometry.cpp:252-381 | every mesh defined sits at the prim name of a selected submesh and is that submesh converted |
| IgnitionGeometry.IgnitionGeometry.AttachToVisual | source/ignition_live/IgnitionGeometry.cpp:92-390 | a simple shape sets its gprim, a mesh defines its converted submeshes, cone and unknown types fail |
| IgnitionGeometry.BoxAndPlaneShapes | source/ignition_live/IgnitionGeometry.cpp:102-155 | box and plane are a unit cube with extent ±0.5 scaled by the size; a plane's z scale is 0.25 |
| IgnitionGeometry.SupportedShapes | source/ignition_live/IgnitionGeometry.cpp:384-389 | exactly cone, mesh and the unknown types define no simple shape |
| IgnitionGeometry.ExtentsAreSymmetric | source/ignition_live/IgnitionGeometry.cpp:102-210 | every simple shape's extent is symmetric about the origin |
| FuelMesh.FuelSearchPaths | source/ignition_live/Mesh.cpp:62-79 | a Fuel URL registers at least the base cache directory |
| FuelMesh.DeeperPathsExtend | source/ignition_live/Mesh.cpp:74-79 | one path per token from the given index, each extending the directory and the previous path |
| FuelMesh.FuelSearchPathsNest | source/ignition_live/Mesh.cpp:62-79 | besides the base, one search path per token after index 6, each a proper prefix of the next |
| FuelMesh.DeeperPathsIgnoreEarlierTokens | source/ignition_live/Mesh.cpp:74-79 | the deeper paths depend only on the tokens from the start index on |
| FuelMesh.FuelSearchPathsIgnoreTokensOneAndSix | source/ignition_live/Mesh.cpp:62-79 | tokens 1 and 6 of the URL path play no part in the search paths |
| FuelMesh.FirstMeshIsFirstSelected | source/ignition_live/Mesh.cpp:110-138 | the result is the first selected submesh converted at the path itself; no selected submesh gives no mesh |
| FuelMesh.UpdateMesh | source/ignition_live/Mesh.cpp:44-258 | no HOME gives no mesh and registers nothing; otherwise the search paths and the first selected submesh's mesh |
| SdfPath.FindLastOf | src/Utils.hh:29 | `find_last_of` gives npos iff the character is absent, else the index of its last occurrence |
| SdfPath.KeptFrom | src/Utils.hh:29-30 | the kept part starts one past the last ':' and at 0 when there is none, as `npos + 1` wraps |
| SdfPath.ReplaceAbsent | src/Utils.hh:31-33 | replacing a character that does not occur changes nothing |
| SdfPath.NameToSdfPathMeaning | src/Utils.hh:27-35 | the result is the part after the last ':' with '(', ')' and '/' turned into '_', so it holds none of ':', '(', ')', '/' |
| SdfPath.NameToSdfPathIdempotent | src/Utils.hh:27-35 | converting twice is converting once |
| SdfPath.NamespaceDropped | src/Utils.hh:29-30 | the scene namespace goes: `a:t` converts like `t` |
| SdfPath.KeptAfterLastColon | src/Utils.hh:29-30 | `a:t` keeps exactly `t` when `t` has no ':' |
| SdfPath.SceneVisualExample | src/Utils.hh:28 | "test_scene::Visual(65535)" converts to "Visual_65535_" |
| SdfPath.VisualTail | src/Utils.hh:31-33 | "Visual(65535)" converts to "Visual_65535_" |
| SdfPath.VisualTailPointwise | src/Utils.hh:31-33 | any string spelling "Visual(65535)" converts to "Visual_65535_" |
| OmniverseGeometry.GeometryTypeNames | src/OmniverseGeometry.cc:39-58 | the seven types get distinct names; only other values get "Unknown" |
| OmniverseGeometry.SupportedTypes | src/OmniverseGeometry.cc:69-112 | exactly box, cylinder, sphere and capsule define a gprim |
| OmniverseGeometry.DefinedExtents | src/OmniverseGeometry.cc:71-107 | box, cylinder and sphere get extent (-1,-1,-1)..(1,1,1), the capsule (-0.5,-0.5,-1)..(0.5,0.5,1) |
| OmniverseGeometry.GeometryPathElementIsSafe | src/OmniverseGeometry.cc:67-69 | the geometry's last path element holds none of ':', '(', ')', '/' |
| OmniverseGeometry.OmniverseGeometry.AttachToVisual | src/OmniverseGeometry.cc:60-115 | a non-Omniverse visual is refused and nothing changes; a supported type defines its gprim and sets the parent; success implies a parent |
| SdfWriter.ParseCube | source/ignition_live/FUSDNoticeListener.hpp:44-76 | the text gains a box visual and then a box collision, and the earlier text is kept |
| SdfWriter.ParseCylinder | source/ignition_live/FUSDNoticeListener.hpp:78-109 | the text gains a visual and then a collision, each with the radius line followed by the height line |
| SdfWriter.ParseSphere | source/ignition_live/FUSDNoticeListener.hpp:111-135 | the text gains a visual and then a collision, each with the sphere's radius |
| SdfWriter.ShapeHalves | source/ignition_live/FUSDNoticeListener.hpp:111-135 | a shape is a visual named `<prim>_visual` followed by a collision named `<prim>_collision` that hold the same geometry |
| SdfWriter.BoxSizeRepeated | source/ignition_live/FUSDNoticeListener.hpp:44-76 | the box size line holds the single cube size three times, separated by spaces |
| SdfWriter.CreateSDF | source/ignition_live/FUSDNoticeListener.hpp:137-163 | the walk only appends, giving the existing text followed by the prim's body |
| SdfWriter.BodyIsShapePieces | source/ignition_live/FUSDNoticeListener.hpp:137-163 | the body is the shapes the walk meets, in order; cubes and invalid prims add nothing and shapes are not descended into |
| SdfWriter.ShapesAreSpheresAndCylinders | source/ignition_live/FUSDNoticeListener.hpp:145-161 | every shape written is a valid sphere or cylinder; cubes are never written |
| SdfWriter.ModelDocumentShape | source/ignition_live/FUSDNoticeListener.hpp:180-199 | the document is the SDFormat 1.7 header, the model, the fixed pose, the `<name>_link` link, the body and the closing tags, in that order |
| SdfWriter.Handle | source/ignition_live/FUSDNoticeListener.hpp:165-284 | the two loops send the requests of the handler specification, with the early return in the first |
| SdfWriter.ResyncCreatesFoundModels | source/ignition_live/FUSDNoticeListener.hpp:167-228 | each resync request creates a found prim whose path names no part, with that prim's document |
| SdfWriter.ResyncStopsAtPart | source/ignition_live/FUSDNoticeListener.hpp:174-178 | the resync loop returns early iff a found prim's path contains "_link", "_visual" or "geometry" |
| SdfWriter.PosesFromTranslatesOnly | source/ignition_live/FUSDNoticeListener.hpp:230-283 | one pose request per translate change, in order, and none for any other property |
| SdfWriter.PartPathSendsNoPose | source/ignition_live/FUSDNoticeListener.hpp:174-178 | a found part path means no pose request is sent at all |
| NoticeListener.WithSphere | source/ignition_live/FUSDNoticeListener.cpp:127-153 | the link gains one visual "sphere_visual" and one collision "sphere_collision" with the same scaled radius |
| NoticeListener.ParsePrim | source/ignition_live/FUSDNoticeListener.cpp:55-67 | only a sphere is added and reported; a cylinder adds nothing and is reported as not handled |
| NoticeListener.CreateSDF | source/ignition_live/FUSDNoticeListener.cpp:69-92 | the link gains the spheres of the walk specification, in order |
| NoticeListener.WithSpheresShapes | source/ignition_live/FUSDNoticeListener.cpp:127-153 | adding spheres keeps the link's name and adds one visual and one collision per sphere, with equal radii |
| NoticeListener.SphereChildEndsWalk | source/ignition_live/FUSDNoticeListener.cpp:80-90 | the first sphere child ends the walk of its parent; later children add nothing |
| NoticeListener.AddedAreSpheres | source/ignition_live/FUSDNoticeListener.cpp:69-92 | each added sphere is a valid sphere prim of the walked tree |
| NoticeListener.Climb | source/ignition_live/FUSDNoticeListener.cpp:319-387 | the walk climbs at most three prims: over "geometry", a `_visual` and a `_link` |
| NoticeListener.WalkUp | source/ignition_live/FUSDNoticeListener.cpp:309-407 | the walk up from a moved prim gives the ancestor-pose specification |
| NoticeListener.GeometryReportsModel | source/ignition_live/FUSDNoticeListener.cpp:319-387 | a geometry under a visual under a link reports the model with the sum of the four translations |
| NoticeListener.PoseNamesNoPart | source/ignition_live/FUSDNoticeListener.cpp:389-394 | a pose is sent iff the walk ends on a name holding neither "_link" nor "_visual", and it names that prim |
| NoticeListener.PlainPrimReportsItself | source/ignition_live/FUSDNoticeListener.cpp:309-407 | a moved prim that is no geometry, visual or link reports itself with its own translation |
| NoticeListener.JointEntries | source/ignition_live/FUSDNoticeListener.cpp:173-182 | one table entry per joint of the message, its name with its first axis position, in order |
| NoticeListener.JointPassTopics | source/ignition_live/FUSDNoticeListener.cpp:266-290 | one output per revolute joint on that joint's topic; afterwards every joint's topic has a publisher |
| NoticeListener.AdvertisedOnce | source/ignition_live/FUSDNoticeListener.cpp:276-281 | a topic is advertised only if it had no publisher, and at most once in a pass |
| NoticeListener.PublishedAfterAdvertise | source/ignition_live/FUSDNoticeListener.cpp:276-288 | a position is published only on a topic that had a publisher or was advertised earlier in the pass |
| NoticeListener.CreationsAreAdmittedPrims | source/ignition_live/FUSDNoticeListener.cpp:187-253 | the creations are exactly those of the valid resynced prims not named after ROS or the physics scene |
| NoticeListener.CreatedLinkIsTheSpheres | source/ignition_live/FUSDNoticeListener.cpp:209-228 | a created model carries its prim's name and its one link holds only spheres of the prim's subtree |
| NoticeListener.ChangedPosesAreTranslates | source/ignition_live/FUSDNoticeListener.cpp:293-408 | the poses are exactly those of translate changes off the root path whose walk ends on a model |
| NoticeListener.PoseVectorSentIff | source/ignition_live/FUSDNoticeListener.cpp:409-425 | a pose vector is requested exactly when some translate change off the root path reaches a model |
| NoticeListener.Listener.JointStateCb | source/ignition_live/FUSDNoticeListener.cpp:173-182 | the joint table is upserted with the message's positions in order; the publishers are unchanged |
| NoticeListener.Listener.Handle | source/ignition_live/FUSDNoticeListener.cpp:184-427 | the creations, then for Isaac Sim only the revolute-joint pass and the pose vector |
| NoticeListener.Listener.RevoluteJointPass | source/ignition_live/FUSDNoticeListener.cpp:257-291 | the publishers, joint table and outputs are those of the joint-pass specification |
| NoticeListener.CreateResynced | source/ignition_live/FUSDNoticeListener.cpp:187-253 | a create request per valid resynced prim not passed over |
| NoticeListener.ChangedPosesOf | source/ignition_live/FUSDNoticeListener.cpp:293-408 | the root path is skipped and each translate change contributes its walk's pose |
| SceneRegistry.ModelId | source/ignition_live/Scene.cpp:262 | the stored id is below 2^32 and equals the message's id whenever that fits |
| SceneRegistry.PoseSetMeaning | source/ignition_live/SceneImpl.cpp:313-326 | setting a pose keeps the names, touches only the named model and only its pose |
| SceneRegistry.PosesAppliedKeepsModels | source/ignition_live/SceneImpl.cpp:335-356 | a pose message never inserts or drops a model and keeps every model's joints |
| SceneRegistry.PosesAppliedLastWins | source/ignition_live/SceneImpl.cpp:335-356 | the last pose sent for a present model sets its corrected pose and its id |
| SceneRegistry.PosesAppliedOthers | source/ignition_live/SceneImpl.cpp:335-356 | a model that no pose names is unchanged |
| SceneRegistry.JointEntries | source/ignition_live/Scene.cpp:359-381 | one joint entry per joint of the message, with its pose and first axis position, in order |
| SceneRegistry.JointsAppliedMeaning | source/ignition_live/SceneImpl.cpp:360-394 | an unknown model is ignored; for a known one only its joints change: old joints plus the message's, the last state sent winning |
| SceneRegistry.AdmissionsMeaning | source/ignition_live/SceneImpl.cpp:255-305 | the insertions of a pass are exactly the new listed models whose prim exists or that have a link visual |
| SceneRegistry.ReconciledMeaning | source/ignition_live/SceneImpl.cpp:219-305 | a known name survives iff it is listed and keeps its entry; a new name is present iff some listing of it is admitted, with the first such listing's model |
| SceneRegistry.FirstAdmission | source/ignition_live/SceneImpl.cpp:255-305 | the first admitted listing of a name is the first insertion of that name |
| SceneRegistry.DefinedPathsStartAtModel | source/ignition_live/Scene.cpp:278-285 | a new model without a prim defines its model xform first, then one xform per link under it |
| SceneRegistry.LinkPathsMeaning | source/ignition_live/Scene.cpp:280-285 | one link path per link, the model path plus '/' plus the link's name |
| SceneRegistry.AdmissionStep | source/ignition_live/Scene.cpp:250-299 | one more listed model inserts it when admitted and its definitions follow the earlier ones |
| SceneRegistry.Scene.GetModels | source/ignition_live/Scene.cpp:166-172 | the result is a copy of the registry |
| SceneRegistry.Scene.SetModelPose | source/ignition_live/Scene.cpp:307-319 | true iff the model is present, and then its pose is the corrected pose; otherwise nothing changes |
| SceneRegistry.Scene.RemoveModel | source/ignition_live/Scene.cpp:321-324 | true iff the name was present; it is absent afterwards and the rest is unchanged |
| SceneRegistry.Scene.CallbackPoses | source/ignition_live/Scene.cpp:328-347 | each pose of the message updates a present model's pose and id; nothing is inserted |
| SceneRegistry.Scene.CallbackJoint | source/ignition_live/Scene.cpp:351-383 | the joints of a known model are upserted in message order; unknown models are ignored |
| SceneRegistry.Scene.Reconcile | source/ignition_live/Scene.cpp:174-300 | a failed scene request changes nothing; otherwise the registry is the reconciled map and the prim edits are the removed paths and the defined xforms |
| SceneRegistry.Scene.EraseAll | source/ignition_live/Scene.cpp:227-248 | each removed, known name loses its prim and its entry |
| SceneRegistry.Scene.AddNew | source/ignition_live/Scene.cpp:250-299 | the admitted new models are inserted without overwriting and their xforms defined |
| SceneRegistry.Scene.InsertPerVisual | source/ignition_live/Scene.cpp:278-298 | each link's xform is defined, and the model is inserted iff some link has a visual and it was absent |
| IgnitionLive.RefreshedKeys | source/ignition_live/ignition_live.cpp:49-76 | a pose message never adds or drops a name |
| IgnitionLive.RefreshedUntouched | source/ignition_live/ignition_live.cpp:55-74 | a present name that no pose names keeps its pose |
| IgnitionLive.RefreshedLastWins | source/ignition_live/ignition_live.cpp:55-74 | the last pose sent for a present name sets its pose, corrected |
| IgnitionLive.PoseEntries | source/ignition_live/ignition_live.cpp:466-473 | one insertion per listed model, its name with its listed pose, in listing order |
| IgnitionLive.CreatedIndicesMeaning | source/ignition_live/ignition_live.cpp:241-245 | a listing position gets prims iff some names were known, its name was not kept and no earlier position lists it |
| IgnitionLive.CreatedIndicesBelow | source/ignition_live/ignition_live.cpp:241-245 | every created position is a position of the listing |
| IgnitionLive.PoseEntriesKeys | source/ignition_live/ignition_live.cpp:466-473 | the insertions name exactly the listed names |
| IgnitionLive.PassKeys | source/ignition_live/ignition_live.cpp:213-474 | after a pass the names are exactly the listed ones |
| IgnitionLive.PassKeepsKnown | source/ignition_live/ignition_live.cpp:466-473 | a listed name that was known keeps its pose, since `insert` does not overwrite |
| IgnitionLive.PassNewFirstPose | source/ignition_live/ignition_live.cpp:466-473 | a new name holds the pose of its first listing |
| IgnitionLive.PassCreated | source/ignition_live/ignition_live.cpp:243-244 | prims are created for the first listing of each new name, and for none on a pass that started with no names |
| IgnitionLive.LiveSync.Cb | source/ignition_live/ignition_live.cpp:49-76 | the pose map is refreshed by the message and the added-prim flag is unchanged |
| IgnitionLive.LiveSync.Pass | source/ignition_live/ignition_live.cpp:186-480 | a failed scene request changes nothing; otherwise the unlisted names are erased with their prims, the new ones created and every listed one inserted, a sphere setting the flag |
| IgnitionLive.LiveSync.EraseAll | source/ignition_live/ignition_live.cpp:230-239 | each removed name loses its "/shapes/" prim and its pose |
| IgnitionLive.LiveSync.CreateAndInsert | source/ignition_live/ignition_live.cpp:241-474 | creations at the specified positions, insertions without overwriting, the flag set iff it was set or a created model has a sphere |
| IgnitionLive.LiveSync.AfterSave | source/ignition_live/ignition_live.cpp:603-608 | the live process follows a save exactly when a prim was added, and the flag is cleared |
| IgnitionLive.DefinePrims | source/ignition_live/ignition_live.cpp:248-375 | the visual loop reports a sphere iff some visual of some link is a sphere |
| UsdaWatcher.StatOutcome | source/omniUsdaWatcher/omniUsdaWatcher.cpp:178-187 | a non-Ok initial stat exits with status 1, an Ok one continues |
| UsdaWatcher.ExactlyOneExportWithoutUpdates | source/omniUsdaWatcher/omniUsdaWatcher.cpp:230-250 | with both times starting equal and no updates, exactly one export happens once the clock passes the start second, and none before |
| UsdaWatcher.OneExportInvariant | source/omniUsdaWatcher/omniUsdaWatcher.cpp:239-247 | without updates there is at most one export, and the write time moves past the start exactly when it happened |
| UsdaWatcher.UpdateIsExported | source/omniUsdaWatcher/omniUsdaWatcher.cpp:196-202 | an update is exported by the first iteration at least one whole second later, recording the write time |
| UsdaWatcher.DeletedEndsTheRun | source/omniUsdaWatcher/omniUsdaWatcher.cpp:207-210 | after a Deleted event nothing changes the times or the exports |
| UsdaWatcher.Watcher.OnEvent | source/omniUsdaWatcher/omniUsdaWatcher.cpp:190-218 | Updated records the time, Deleted exits with status 1, other events change nothing |
| UsdaWatcher.Watcher.Tick | source/omniUsdaWatcher/omniUsdaWatcher.cpp:237-248 | an export is attempted iff at least one whole second passed since the update and none since it; the write time is recorded even when the export fails |
| UsdaWatcher.Watcher.RunSteps | source/omniUsdaWatcher/omniUsdaWatcher.cpp:230-250 | interleaved callbacks and iterations leave the state the run specification gives |
| UsdaWatcher.Watcher.Stop | source/omniUsdaWatcher/omniUsdaWatcher.cpp:347 | the worker is stopped and nothing else changes |
| UsdaWatcher.AwaitQuit | source/omniUsdaWatcher/omniUsdaWatcher.cpp:336-344 | the key loop stops at the first 'q' or escape, having read no quit key before it |
| BuildTools.FirstMatchMeaning | tools/repoman/findwindowsbuildtools.py:119-127 | a match is found iff some display name contains the search text, and it is the first such entry's installation path |
| BuildTools.FindVs | tools/repoman/findwindowsbuildtools.py:96-127 | nothing without Program Files (x86) or vswhere.exe; otherwise the last installation when listing all, else the first match |
| BuildTools.FindMsvcVer | tools/repoman/findwindowsbuildtools.py:135-147 | the first entry of the MSVC folder, nothing when it is missing or empty |
| BuildTools.VcPath | tools/repoman/findwindowsbuildtools.py:36 | the MSVC version under ../_build/host-deps/buildtools/VC/Tools/MSVC |
| BuildTools.VcPathShape | tools/repoman/findwindowsbuildtools.py:36 | the path starts at the parent directory and ends with a separator and the version |
| BuildTools.JoinedStart | tools/repoman/findwindowsbuildtools.py:36 | a join of several parts starts with the first part and a separator |
| BuildTools.IndexOf | tools/repoman/findwindowsbuildtools.py:55 | the first index of the character, none iff it does not occur |
| BuildTools.SecondField | tools/repoman/findwindowsbuildtools.py:55-57 | `split("=")[1]` exists iff the line has an '=', and holds no '=' |
| BuildTools.SecondFieldPlace | tools/repoman/findwindowsbuildtools.py:55-57 | the field follows the first '=' and ends at the next '=' or the end of the line |
| BuildTools.RStrip | tools/repoman/findwindowsbuildtools.py:55-57 | `rstrip` leaves a prefix that does not end with the character, and removes only that character |
| BuildTools.RStripIdempotent | tools/repoman/findwindowsbuildtools.py:55-57 | stripping twice strips nothing more |
| BuildTools.SdkScanNoDir | tools/repoman/findwindowsbuildtools.py:53-57 | without a line naming WindowsSDKDir the directory stays empty |
| BuildTools.SdkScanLastDir | tools/repoman/findwindowsbuildtools.py:53-57 | the directory is the value of the last line naming WindowsSDKDir |
| BuildTools.SdkScanNoVersion | tools/repoman/findwindowsbuildtools.py:53-57 | without a line naming WindowsSdkVersion (and not WindowsSDKDir) the version stays empty |
| BuildTools.SdkScanLastVersion | tools/repoman/findwindowsbuildtools.py:53-57 | the version is the value of the last line naming WindowsSdkVersion and not WindowsSDKDir |
| BuildTools.SdkScanFailure | tools/repoman/findwindowsbuildtools.py:53-57 | the scan fails exactly at the first matching line without '=' |
| BuildTools.SdkDirs | tools/repoman/findwindowsbuildtools.py:59-62 | the bin, include and lib folders are set only when the SDK directory exists |
| BuildTools.FindReplace | tools/repoman/findwindowsbuildtools.py:69-76 | the table maps exactly the six dependency names to their paths |
| BuildTools.Replacement | tools/repoman/findwindowsbuildtools.py:77-79 | a child is replaced iff it is a dependency whose name has a non-empty path in the table |
| BuildTools.SubstitutedMeaning | tools/repoman/findwindowsbuildtools.py:77-81 | a replaced dependency's sources carry the new path and keep their other attributes; everything else is unchanged |
| BuildTools.SubstitutedIdempotent | tools/repoman/findwindowsbuildtools.py:77-81 | substituting a second time changes nothing |
| BuildTools.HostDeps.Substitute | tools/repoman/findwindowsbuildtools.py:77-82 | every child becomes its substitution, in place |
| BuildTools.SetPaths | tools/repoman/findwindowsbuildtools.py:80-81 | each source's path is set and its other attributes kept |
| OmniClient.OmniverseLock.constructor | source/ignition_live/OmniClientpp.cpp:26-29 | constructing the lock locks its URL and nothing else |
| OmniverseGeometry.OmniverseGeometry.constructor | src/OmniverseGeometry.cc:30-36 | a fresh geometry of the given name and type has no gprim and no parent |
| IgnitionLive.LiveSync.constructor | source/ignition_live/ignition_live.cpp:182 | the program starts with no poses and the added-prim flag clear |
| UsdaWatcher.Watcher.constructor | source/omniUsdaWatcher/omniUsdaWatcher.cpp:305-306 | both times start at the same clock reading, with no export yet |

## Left out

- Floating point: coordinates, radii and poses are reals. Float rounding, including the narrowing of a stored value to float, is kept only as a tag on the stored value.
- sin and cos of the live-edit offset, and the degree-to-radian factor, are a function parameter `circle`; only how the offset is added is modelled.
- Quaternion composition in the ancestor walk is kept as the list of rotations it composes. The composed quaternion, `Pose3d::Correct` and the scale of the ellipsoid are not computed; the pose correction is a function parameter.
- `std::to_string` formatting: the SDFormat writer receives numbers as text and builds the document as a list of pieces whose concatenation is the text; `sdf::Root` serialisation in the `.cpp` listener is modelled only as the model, link, visuals and collisions it holds.
- USD's typed `Get` of a value of another precision is not modelled: reading an op gives its stored vector. `AddXformOp` is taken to succeed (USD's refusal of a duplicate op suffix is not modelled).
- I/O: printing, logging, `fgets`, `getchar` and `_getch` are left out. Keys are a sequence of characters, so end of input ends the key loops rather than returning EOF. The Python `Get` returning `None` for an unset op is not modelled.
- Foreign calls are parameters or left out: `omniClient*` and `omniUsdLive*` calls, Ignition transport requests and subscriptions, `findFile`, `MeshManager::Load` (`load`), `TopicUtils::AsValidTopic` (`asValidTopic`), `omniClientBreakUrl` (`breakUrl`), and whether a prim already exists on the stage (`primExists`).
- Concurrency: mutexes, worker threads, the condition variable of omnicli and the watcher's atomic `stopped` flag are modelled as sequential steps; the interleaving of callbacks and worker iterations is an explicit sequence of steps.
- The clock (`std::time`) is a parameter of each step. The export itself is left out; whether it succeeds changes no state, so `RunSteps` takes every export to succeed.
- FuelMesh.UpdateMesh: the mesh extent (whole-mesh bounds), the scale from the message, the subdivision scheme and the normals interpolation are not modelled; a Fuel URL path with fewer than six tokens, which the source indexes out of range, is excluded by the requires.
- FuelMesh.JoinPath joins two parts with one '/' and does not collapse separators as `joinPaths` does: a HOME ending in '/' gives a doubled separator in the model and a single one in the source.
- `os.path.join` is a plain join with a separator; drive letters and absolute components are not modelled. `subprocess`, JSON and XML parsing, `tree.write`, `run_command` and `argparse` are left out; the `vswhere` listing and the dependency tree are given as values, and a missing JSON field (a `KeyError`) is not modelled.
- IgnitionGeometry.IgnitionGeometry.AttachToVisual: the ellipsoid's scale and extent, materials and the mesh transform are not modelled; the mesh branch returns the meshes it defines.
- The C++ `std::string` of a null URL scheme in `isValidOmniURL` is taken as a missing scheme.
- `SdfPath::AppendPath` is modelled as appending '/' and the converted name; its failures on malformed paths are not modelled.
- `std::string::substr` with an index of 2^31 or more in the ancestor walk's suffix tests is not modelled; names are taken to be shorter.
- Simulators other than Isaac Sim are one value `OtherSimulator`. The ancestor walk above the given chain of prims meets prims without a name or ops.
- `IgnitionVisual::AttachGeometry` in the registry's worker is modelled only through whether a link has a visual; the material, geometry and link prims the `ignition_live` worker defines are modelled only as which models get prims and whether a sphere was among them.
- `Scene.cpp` and `SceneImpl.cpp` are modelled by one class `Scene`; the topics they subscribe to are left out.
- SceneRegistry.Admitted: whether a model's prim exists is fixed for the whole pass. In the source, a name listed twice in one scene reply finds, at its second listing, the xform its first listing defined in the same pass; the model does not see that xform.
- SceneRegistry.Scene.GetModels: joints are held by value; in the source the returned copy shares its IgnitionJoint objects with the registry, so a later update of an existing joint also changes the copy.
- HelloWorld.CreateBox: the mesh orientation attribute, the `st` interpolation and the float narrowing of the colour and UVs are not modelled.
- The 64-bit model id is truncated to the 32-bit `id` field; poses and ids of messages are otherwise taken as given.
