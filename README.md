# Offset generator: resolution engine and output template

This project models the core of the offset generator, a tool that finds the
memory offsets of fields in a game's reflected type information and writes
them out as a C++ header. It covers two parts:

- **The resolution engine** (`Program`). It walks a tree of namespace
  definitions against a read-only list of type records.
  - For every offset definition it looks up a type:
    - with a first-match filter pipeline;
    - or, for a chained reference `"Namespace::Offset"`, through a field that an
      earlier offset already resolved.
  - It then looks up a field of that type. It filters the fields by type and by
    name, with reserved prefixes for generated names, and takes the first
    survivor or the pick of a caller-supplied delegate.
  - It writes the results into the `FoundType` and `FoundField` slots of the tree.
  - The output file is framed as preprocessor lines, a comment header, and an
    `offsets` namespace holding one block per root definition.
- **`BaseTemplate`**, the append-only line buffer the output is written into.

How the model is laid out:

- **The tree is a value.** A node is identified by its position in the pre-order
  listing of the whole tree (the listing `GetAllNamespaceDefinitions` builds).
  The slots the source writes in place are sequences indexed by that position,
  held by the class `Program.Generator` and updated by its methods.
- **The lookups are functions.** Every exception the engine's own code raises
  on non-null inputs becomes a `Failure` value: `First()` on an empty sequence,
  `parts[1]` of a reference without `"::"`, or the dereference of a null type.
- **The pass has a specification.** `Resolution.RunFrom` is the
  offset-by-offset pass in pre-order as a function, and the imperative pass is
  proved equal to it.
- **The buffer is a class.** `Template.BaseTemplate` keeps the text (`Sb`)
  together with a ghost list of the lines appended so far, and its methods are
  specified by that list.

Where the code and the system's documented behaviour differ, the model follows
the code:

- **The pass aborts on the first exception.** Resolution is documented as best
  effort. In the code, any exception from a lookup propagates out of
  `GenerateOffsets`, so the pass stops at the first failing offset and no file
  is written. The model's pass returns that failure and stops there.
- **Explicit type names can match marker-prefixed fields.** An explicit type name
  that happens to start with `-.GClass` is still compared by equality, so
  marker-prefixed fields can be selected through it.

## Model

| member | source | states |
|---|---|---|
| Flattening.GetAllNamespaceDefinitionsRecursive | OffsetGenerator.App/Program.cs:104-115 | The list built is the node followed by each child's listing, children in list order: the pre-order listing `Flatten(parent)`. |
| Flattening.GetAllNamespaceDefinitions | OffsetGenerator.App/Program.cs:117-125 | The list built is the roots' listings concatenated in `Definitions` order. |
| Flattening.FlattenLength | OffsetGenerator.App/Program.cs:104-115 | A tree's listing has exactly as many entries as the tree has nodes, counted independently. |
| Flattening.FlattenAllLength | OffsetGenerator.App/Program.cs:117-125 | The listing of all roots has exactly as many entries as the forest has nodes. |
| Flattening.FlattenMembers | OffsetGenerator.App/Program.cs:104-115 | A namespace occurs in a tree's listing if and only if it is the root or a descendant. |
| Flattening.FlattenAllAppend | OffsetGenerator.App/Program.cs:117-125 | Listing two lists of roots in turn gives the listing of their concatenation. |
| Flattening.FlattenAllSlice | OffsetGenerator.App/Program.cs:117-125 | Root `k`'s listing sits in the whole listing right after the listings of the roots before it. |
| Flattening.ChildPlaced | OffsetGenerator.App/Program.cs:109-112 | Child `k` of a node sits in the listing right after the node and the subtrees of its earlier children, followed by its own subtree, inside the parent's range. |
| Flattening.RootPlaced | OffsetGenerator.App/Program.cs:121-122 | Root `k` sits in the listing right after the subtrees of the earlier roots, followed by its own subtree. |
| Lookup.IndexOfSeparatorFirst | OffsetGenerator.App/Program.cs:131 | The separator search finds the first `"::"` at or after the start, and finds none only when there is none. |
| Lookup.SplitPiecesHaveNoSeparator | OffsetGenerator.App/Program.cs:131 | No piece produced by `Split("::")` contains the separator. |
| Lookup.JoinSplit | OffsetGenerator.App/Program.cs:131 | Splitting on `"::"` loses nothing: the pieces joined with `"::"` give back the reference. |
| Lookup.FindTypeFirstCandidate | OffsetGenerator.App/Program.cs:161-182 | Without a chain reference, the type is the first record that is a `"Class"` and matches the namespace and class name wherever they are set, and null exactly when no record does. With one, those filters are ignored: the result is the type the chain lookup returns, and its failure is the chain lookup's own. |
| Lookup.ChainNeedsResolvedOffset | OffsetGenerator.App/Program.cs:140-144 | Only the first namespace with the referenced dump name is searched, and only resolved offsets count. If none of its offsets with the referenced name is resolved, the lookup fails, whatever later namespaces hold. |
| Lookup.ChainLookupByPositions | OffsetGenerator.App/Program.cs:127-159 | Given the first matching namespace, its first resolved offset with the referenced name, and the first type whose full name is that field's type: the result is that type. If the type is a field-less interface, the result is the first implementing class, and the lookup fails exactly when no class implements it. |
| Lookup.ChainLookupFieldTypeMissing | OffsetGenerator.App/Program.cs:146-148 | When the referenced offset is found but no type has its field's type as full name, the chain lookup fails with exactly that failure. |
| Lookup.ChainLookupFailures | OffsetGenerator.App/Program.cs:131-142 | A reference without `"::"` fails as missing its second part, and only such a reference does. A dump name no namespace has fails as not found, and only such a name does. |
| Lookup.SurvivorsAreAccepted | OffsetGenerator.App/Program.cs:187-199 | The two filter stages keep exactly the fields both axes accept, in the type's field order. |
| Lookup.MarkersOverrideExplicitFilters | OffsetGenerator.App/Program.cs:189-199 | With the unknown-type flag, every survivor's type starts with `-.GClass` and the explicit type name changes nothing. The unknown-name flag does the same with `gClass` and the field name. |
| Lookup.FindFieldChoice | OffsetGenerator.App/Program.cs:184-209 | A null type fails. With a delegate, its answer on the survivors is returned unchanged, null included. Without one, the result is the first accepted field in field order, and an empty candidate list is a failure, never a null. |
| Resolution.HandleOffsetWrites | OffsetGenerator.App/Program.cs:216-238 | One offset writes only its own `FoundField` and its namespace's `FoundType`. An exception from the type lookup or the field lookup becomes the step's failure and leaves every slot as it was. A null field leaves them too, without failing. A found field is written, together with the non-null type it was found in. |
| Resolution.HandleOffsetFrame | OffsetGenerator.App/Program.cs:216-238 | One offset leaves every slot alone except its own `FoundField` and its namespace's `FoundType`. |
| Resolution.HandleOffsetGrows | OffsetGenerator.App/Program.cs:225-234 | One offset never turns a resolved slot back to null: the only writes are a found field and the non-null type it came from. |
| Resolution.OffsetStep | OffsetGenerator.App/Program.cs:246-247 | After handling one offset the pass either ends with that offset's exception or continues from the next offset with the updated slots. |
| Resolution.NodeEnd | OffsetGenerator.App/Program.cs:246-250 | After a node's last offset the pass moves on to the next node in pre-order, its first child if it has one. |
| Resolution.SubtreeStep | OffsetGenerator.App/Program.cs:249-250 | Handling a child's subtree is a step of the parent's pass: an exception there ends the parent's pass with the same result. |
| Resolution.RunFromSplit | OffsetGenerator.App/Program.cs:244-251 | A pass over a range is the pass over a first part followed, unless that raised, by the pass over the rest. |
| Resolution.RunFromFrame | OffsetGenerator.App/Program.cs:244-251 | A pass over a range of nodes leaves the slots of every node outside the range, and of the earlier offsets of its first node, unchanged. |
| Resolution.RunFromMonotone | OffsetGenerator.App/Program.cs:225-234 | A pass never clears a slot: what was resolved stays resolved. |
| Resolution.ForwardReferenceFails | OffsetGenerator.App/Program.cs:136-144 | Chains only look backwards in pre-order. On a fresh tree, a reference to a namespace that first appears at or after the referring node raises at that node's first offset. |
| Program.Generator.HandleOffsetDefinition | OffsetGenerator.App/Program.cs:216-238 | The new slots and the exception raised are exactly one step of the pass specification. |
| Program.Generator.IterateNamespaceDefinition | OffsetGenerator.App/Program.cs:244-251 | The node's offsets in list order, then each child's subtree in list order: the new slots and the exception equal the pass specification over the node's pre-order range. |
| Program.Generator.GenerateOffsets | OffsetGenerator.App/Program.cs:98-102 | Handling every root in `Definitions` order equals the pass specification over the whole listing, stopping at the first exception. |
| Program.Generator.HandleNamespace | OffsetGenerator.App/Program.cs:272 | The renderer's lines for a call are appended to the template, in order and unindented. |
| Program.Generator.WriteFileStart | OffsetGenerator.App/Program.cs:258-268 | Before the namespaces the file holds the two preprocessor lines, a blank line, the five-line header, a blank line, `namespace offsets` and `{`. |
| Program.Generator.WriteNamespaces | OffsetGenerator.App/Program.cs:270-273 | One `HandleNamespace` call per root, in `Definitions` order, each naming the root's position in the listing at depth 1; the template gains exactly the calls' lines. |
| Program.Generator.GenerateOutputFile | OffsetGenerator.App/Program.cs:256-277 | One `HandleNamespace` call per root, in order, at depth 1, flagged last only for the last root. The text is the file start, the calls' lines and a closing `}`. |
| Program.RootCallsTargetRoots | OffsetGenerator.App/Program.cs:270-273 | Each root's call names the position of that root in the listing, and only the last root's call is flagged last. |
| Program.OutputFrame | OffsetGenerator.App/Program.cs:258-275 | The file's text reads back into its lines: eleven fixed opening lines including the header, then the calls' lines, then `}` last. |
| Template.Tabs | OffsetGenerator.Common/Templates/BaseTemplate.cs:15 | The indentation is exactly `n` tab characters. |
| Template.Unindented | OffsetGenerator.Common/Templates/BaseTemplate.cs:14-15 | A line written at indentation 0 is written as given. |
| Template.TextAppend | OffsetGenerator.Common/Templates/BaseTemplate.cs:14-15 | Appending lines in two batches gives the text of the first batch followed by that of the second. |
| Template.ParseText | OffsetGenerator.Common/Templates/BaseTemplate.cs:29-30 | The built text determines the lines appended, as long as no line holds a line feed. |
| Template.HeaderShape | OffsetGenerator.Common/Templates/BaseTemplate.cs:17-24 | The header is five lines: `/*` and `*/` unindented, and the tool name, time and version one tab in. |
| Template.VersionLineCases | OffsetGenerator.Common/Templates/BaseTemplate.cs:22 | The version line reads `Unknown game version` exactly when the version is null or empty, and `Game version ` followed by the version otherwise. |
| Template.BaseTemplate.AddInstruction | OffsetGenerator.Common/Templates/BaseTemplate.cs:14-15 | Appends exactly `intend` tabs (2 when not given), the instruction and one line terminator, and leaves earlier content unchanged. |
| Template.BaseTemplate.AddHeader | OffsetGenerator.Common/Templates/BaseTemplate.cs:17-24 | Appends exactly the five header lines after what was there. |
| Template.BaseTemplate.SkipLine | OffsetGenerator.Common/Templates/BaseTemplate.cs:32-33 | Appends exactly one empty line and its terminator. |
| Template.BaseTemplate.Build | OffsetGenerator.Common/Templates/BaseTemplate.cs:29-30 | Returns the text of all lines appended, in call order, and changes nothing, so two calls give the same text. |

## Left out

- `Main`, process discovery, the type dump and the outer exception handler are process and memory I/O. `Program.Generator` starts from the type records and the definition tree given as inputs.
- `GetConsistencyInfo` reads files and JSON. The game version is an input.
- `EnsureOutputDirectoryExists` and `Build(path)` write to the filesystem. `GenerateOutputFile` returns the text it would write.
- `Logger` calls only report progress and have no effect on results.
- `DateTime.Now` in `AddHeader` is replaced by a `timestamp` parameter holding its text.
- `CppTemplate.HandleNamespace` is not part of this model. Its output is a caller-supplied function of the slots and the call's arguments, and the calls made are returned.
- The contents of `Definitions` and the bodies of the `FieldFilterExpression` delegates are not part of this model. They are inputs, and a delegate is an arbitrary function from the candidate fields to an optional field.
- Nodes are identified by listing position, not by object reference. The model does not capture aliasing, such as one definition object reachable twice in the tree.
  - `Definitions.Last()` is compared by reference in the source. The model flags the call at the last index.
- The chain lookup rebuilds the listing of all namespaces on every call. The model builds it once, since the tree does not change during a pass.
- `StartsWith` in the field filters is culture-sensitive in .NET. It is modelled as an ordinal prefix test.
- `Template.BaseTemplate.AddInstruction` takes a non-negative indentation. A negative one throws in .NET, and that path is not modelled.
- `Environment.NewLine` is modelled as `"\r\n"`, its value on Windows, the platform the tool targets.
- Strings in the type records and definitions are assumed non-null.
- Exceptions raised inside a `FieldFilterExpression` delegate are not modelled. In the source they propagate and abort the pass, but a delegate here always returns an optional field.
- Interfaces of a type record are modelled by their names, the only thing the source compares.
