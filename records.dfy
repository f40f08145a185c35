/** The records the resolution engine reads and the nodes of the definition tree. */
module Records {
  import opened Seqs

  /** A field of a reflected type (`FieldDefWrapper`). */
  datatype FieldRecord = FieldRecord(name: string, fieldType: string, offset: int)

  /** A reflected type (`TypeDefWrapper`); `interfaces` holds the names of the
      interfaces it implements. */
  datatype TypeRecord = TypeRecord(
    fullName: string,
    name: string,
    typeNamespace: string,
    classType: string,
    fields: seq<FieldRecord>,
    interfaces: seq<string>)

  /** `OffsetDefinition.FieldFilterExpression`: a caller-supplied choice among the
      candidate fields; `None` stands for the delegate returning null. */
  type FieldFilter = seq<FieldRecord> -> Option<FieldRecord>

  /** A requested offset (`OffsetDefinition`) without its `FoundField` slot,
      which lives in `Slots`. */
  datatype OffsetDef = OffsetDef(
    offsetName: string,
    typeName: Option<string>,
    fieldName: Option<string>,
    isUnknownType: bool,
    isUnknownFieldName: bool,
    fieldFilter: Option<FieldFilter>)

  /** A namespace of the definition tree (`NamespaceDefinition`) without its
      `FoundType` slot, which lives in `Slots`. */
  datatype NamespaceDef = NamespaceDef(
    dumpName: string,
    namespaceName: Option<string>,
    className: Option<string>,
    previousFoundField: Option<string>,
    offsets: seq<OffsetDef>,
    children: seq<NamespaceDef>)

  /** The resolution slots of every node. A node is identified by its position in
      the pre-order listing of the whole tree; `foundType[i]` is the `FoundType` of
      node `i` and `foundField[i][j]` the `FoundField` of its `j`-th offset. */
  datatype Slots = Slots(
    foundType: seq<Option<TypeRecord>>,
    foundField: seq<seq<Option<FieldRecord>>>)

  /** The slots have one entry per node and per offset of `all`. */
  ghost predicate Shaped(all: seq<NamespaceDef>, s: Slots)
  {
    |s.foundType| == |all| && |s.foundField| == |all| &&
    forall i {:trigger s.foundField[i]} :: 0 <= i < |all| ==> |s.foundField[i]| == |all[i].offsets|
  }

  /** The exceptions the resolution code can raise. */
  datatype Failure =
    | MissingSeparator        // `parts[1]` of a reference without "::"
    | NamespaceNotFound       // no namespace has the referenced dump name
    | ResolvedOffsetNotFound  // no resolved offset has the referenced name
    | FieldTypeNotFound       // no type has the field's type as full name
    | ImplementorNotFound     // no class implements the field-less interface
    | TypeIsNull              // the namespace's type was not found
    | NoCandidateField        // `First()` on an empty candidate list

  datatype Result<+T> = Ok(value: T) | Err(failure: Failure)
}
