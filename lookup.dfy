/** The three first-match lookups of the resolution engine: the type of a namespace
    (`FindTypeFromParentNamespaceDefinition`), the chained type reached through an
    already resolved field (`LookupTypeFromPreviousFoundType`) and the field of an
    offset (`FindFieldFromOffsetDefinition`). They read the type records and the
    slots and change nothing. */
module Lookup {
  import opened Seqs
  import opened Records
  import opened Flattening

  // ---------------------------------------------------------------------------
  // `string.Split("::")`
  // ---------------------------------------------------------------------------

  const Separator: string := "::"

  /** The separator "::" starts at position `k` of `s`. */
  predicate SeparatorAt(s: string, k: int)
  {
    0 <= k && k + 1 < |s| && s[k] == ':' && s[k + 1] == ':'
  }

  /** The first position at or after `from` where the separator starts. */
  function IndexOfSeparator(s: string, from: nat): (r: Option<nat>)
    requires from <= |s|
    ensures r.Some? ==> from <= r.value && SeparatorAt(s, r.value)
    decreases |s| - from
  {
    if from + 1 >= |s| then None
    else if SeparatorAt(s, from) then Some(from)
    else IndexOfSeparator(s, from + 1)
  }

  /** The search finds the first occurrence, and none only when there is none. */
  lemma {:induction false} IndexOfSeparatorFirst(s: string, from: nat)
    requires from <= |s|
    ensures IndexOfSeparator(s, from).Some? ==>
      forall k :: from <= k < IndexOfSeparator(s, from).value ==> !SeparatorAt(s, k)
    ensures IndexOfSeparator(s, from).None? ==> forall k :: from <= k < |s| ==> !SeparatorAt(s, k)
    decreases |s| - from
  {
    if from + 1 < |s| && !SeparatorAt(s, from) {
      IndexOfSeparatorFirst(s, from + 1);
    }
  }

  /** The pieces of `s` between occurrences of "::", scanning left to right. */
  function Split(s: string): (parts: seq<string>)
    ensures |parts| >= 1
    decreases |s|
  {
    match IndexOfSeparator(s, 0)
    case None => [s]
    case Some(i) => [s[..i]] + Split(s[i + 2..])
  }

  /** No piece holds the separator. */
  lemma {:induction false} SplitPiecesHaveNoSeparator(s: string)
    ensures forall k, m :: 0 <= k < |Split(s)| ==> !SeparatorAt(Split(s)[k], m)
    decreases |s|
  {
    IndexOfSeparatorFirst(s, 0);
    match IndexOfSeparator(s, 0)
    case None =>
    case Some(i) =>
      SplitPiecesHaveNoSeparator(s[i + 2..]);
      var head := s[..i];
      forall m | SeparatorAt(head, m) ensures false {
        assert SeparatorAt(s, m);
      }
      forall k, m | 0 <= k < |Split(s)| ensures !SeparatorAt(Split(s)[k], m) {
        if k > 0 {
          assert Split(s)[k] == Split(s[i + 2..])[k - 1];
        }
      }
  }

  /** The pieces put back together with "::" between them. */
  function Join(parts: seq<string>): string
    requires |parts| >= 1
    decreases |parts|
  {
    if |parts| == 1 then parts[0] else parts[0] + Separator + Join(parts[1..])
  }

  /** Splitting loses nothing: the pieces and separators make up the input. */
  lemma {:induction false} JoinSplit(s: string)
    ensures Join(Split(s)) == s
    decreases |s|
  {
    match IndexOfSeparator(s, 0)
    case None =>
    case Some(i) =>
      JoinSplit(s[i + 2..]);
      assert s == s[..i] + Separator + s[i + 2..];
  }

  // ---------------------------------------------------------------------------
  // Type of a namespace (Program.cs 161-182)
  // ---------------------------------------------------------------------------

  function IsClass(): TypeRecord -> bool
  {
    (c: TypeRecord) => c.classType == "Class"
  }

  function InNamespace(name: string): TypeRecord -> bool
  {
    (c: TypeRecord) => c.typeNamespace == name
  }

  function HasName(name: string): TypeRecord -> bool
  {
    (c: TypeRecord) => c.name == name
  }

  /** A type the direct lookup accepts for `ns`: a class, in the requested namespace
      and with the requested name wherever those are set. */
  predicate IsCandidate(ns: NamespaceDef, c: TypeRecord)
  {
    c.classType == "Class" &&
    (ns.namespaceName.None? || c.typeNamespace == ns.namespaceName.value) &&
    (ns.className.None? || c.name == ns.className.value)
  }

  function CandidateOf(ns: NamespaceDef): TypeRecord -> bool
  {
    (c: TypeRecord) => IsCandidate(ns, c)
  }

  /** The filter pipeline: the classes, then those in the namespace, then those
      with the class name. */
  function ClassCandidates(db: seq<TypeRecord>, ns: NamespaceDef): seq<TypeRecord>
  {
    var classes := Filter(db, IsClass());
    var inNamespace :=
      if ns.namespaceName.Some? then Filter(classes, InNamespace(ns.namespaceName.value)) else classes;
    if ns.className.Some? then Filter(inNamespace, HasName(ns.className.value)) else inNamespace
  }

  /** `FindTypeFromParentNamespaceDefinition`: `Ok(None)` is the null it returns when
      no class matches; `Err` is an exception of the chain lookup. */
  function FindType(db: seq<TypeRecord>, all: seq<NamespaceDef>, s: Slots, ns: NamespaceDef)
    : Result<Option<TypeRecord>>
    requires Shaped(all, s)
  {
    if ns.previousFoundField.Some? then
      match ChainLookup(db, all, s, ns.previousFoundField.value)
      case Err(e) => Err(e)
      case Ok(t) => Ok(Some(t))
    else
      Ok(First(ClassCandidates(db, ns)))
  }

  /** Without a chain reference the result is the first record of the database
      that is a class and matches every filter that is set, and null only when no
      record does; with one, the filters are not consulted and the chain lookup
      alone decides. */
  lemma FindTypeFirstCandidate(db: seq<TypeRecord>, all: seq<NamespaceDef>, s: Slots, ns: NamespaceDef)
    requires Shaped(all, s)
    ensures ns.previousFoundField.None? ==> FindType(db, all, s, ns) == Ok(FirstWhere(db, CandidateOf(ns)))
    ensures ns.previousFoundField.Some? ==>
      FindType(db, all, s, ns) == FindType(db, all, s, ns.(namespaceName := None, className := None)) &&
      (FindType(db, all, s, ns).Ok? <==> ChainLookup(db, all, s, ns.previousFoundField.value).Ok?)
    ensures ns.previousFoundField.Some? && ChainLookup(db, all, s, ns.previousFoundField.value).Ok? ==>
      FindType(db, all, s, ns) == Ok(Some(ChainLookup(db, all, s, ns.previousFoundField.value).value))
    ensures ns.previousFoundField.Some? && ChainLookup(db, all, s, ns.previousFoundField.value).Err? ==>
      FindType(db, all, s, ns) == Err(ChainLookup(db, all, s, ns.previousFoundField.value).failure)
    ensures ns.previousFoundField.None? ==>
      (FindType(db, all, s, ns) == Ok(None) <==> forall k :: 0 <= k < |db| ==> !IsCandidate(ns, db[k]))
    ensures ns.previousFoundField.None? && FindType(db, all, s, ns).Ok? && FindType(db, all, s, ns).value.Some? ==>
      exists k :: 0 <= k < |db| && db[k] == FindType(db, all, s, ns).value.value && IsCandidate(ns, db[k]) &&
        forall m :: 0 <= m < k ==> !IsCandidate(ns, db[m])
  {
    if ns.previousFoundField.None? {
      var classes := Filter(db, IsClass());
      var nsFilter: TypeRecord -> bool :=
        (c: TypeRecord) => c.classType == "Class" && (ns.namespaceName.None? || c.typeNamespace == ns.namespaceName.value);
      var inNamespace :=
        if ns.namespaceName.Some? then Filter(classes, InNamespace(ns.namespaceName.value)) else classes;
      if ns.namespaceName.Some? {
        FilterFilter(db, IsClass(), InNamespace(ns.namespaceName.value), nsFilter);
      } else {
        FilterCongruent(db, IsClass(), nsFilter);
      }
      assert inNamespace == Filter(db, nsFilter);
      if ns.className.Some? {
        FilterFilter(db, nsFilter, HasName(ns.className.value), CandidateOf(ns));
      } else {
        FilterCongruent(db, nsFilter, CandidateOf(ns));
      }
      assert ClassCandidates(db, ns) == Filter(db, CandidateOf(ns));
      FirstOfFilter(db, CandidateOf(ns));
      FirstWhereIsFirst(db, CandidateOf(ns));
    }
  }

  // ---------------------------------------------------------------------------
  // Chain lookup (Program.cs 127-159)
  // ---------------------------------------------------------------------------

  function HasDumpName(name: string): NamespaceDef -> bool
  {
    (n: NamespaceDef) => n.dumpName == name
  }

  /** An offset of the referenced namespace, with its `FoundField` slot. */
  type SlottedOffset = (OffsetDef, Option<FieldRecord>)

  /** An offset that is resolved and has the referenced name. */
  function IsResolvedNamed(name: string): SlottedOffset -> bool
  {
    (o: SlottedOffset) => o.1.Some? && o.0.offsetName == name
  }

  function HasFullName(name: string): TypeRecord -> bool
  {
    (c: TypeRecord) => c.fullName == name
  }

  function ImplementsInterface(name: string): TypeRecord -> bool
  {
    (c: TypeRecord) => c.classType == "Class" && name in c.interfaces
  }

  /** The offsets of node `i`, each paired with its slot. */
  function OffsetsWithSlots(all: seq<NamespaceDef>, s: Slots, i: nat): (r: seq<SlottedOffset>)
    requires Shaped(all, s) && i < |all|
    ensures |r| == |all[i].offsets|
  {
    seq(|all[i].offsets|, j requires 0 <= j < |all[i].offsets| => (all[i].offsets[j], s.foundField[i][j]))
  }

  /** A type that carries no state of its own and stands for its implementors. */
  predicate IsEmptyInterface(t: TypeRecord)
  {
    t.classType == "Interface" && |t.fields| == 0
  }

  /** `LookupTypeFromPreviousFoundType`: `all` is the pre-order listing of the whole
      tree and `s` its slots at the time of the call. */
  function ChainLookup(db: seq<TypeRecord>, all: seq<NamespaceDef>, s: Slots, reference: string)
    : Result<TypeRecord>
    requires Shaped(all, s)
  {
    var parts := Split(reference);
    if |parts| < 2 then Err(MissingSeparator)
    else
      match FirstIndex(all, HasDumpName(parts[0]))
      case None => Err(NamespaceNotFound)
      case Some(i) =>
        match FirstWhere(OffsetsWithSlots(all, s, i), IsResolvedNamed(parts[1]))
        case None => Err(ResolvedOffsetNotFound)
        case Some(o) =>
          match FirstWhere(db, HasFullName(o.1.value.fieldType))
          case None => Err(FieldTypeNotFound)
          case Some(t) =>
            if IsEmptyInterface(t) then
              match FirstWhere(db, ImplementsInterface(t.name))
              case None => Err(ImplementorNotFound)
              case Some(c) => Ok(c)
            else
              Ok(t)
  }

  /** The chain lookup never treats an unresolved offset as a match: when no
      resolved offset of the first namespace with the referenced dump name has the
      referenced offset name, the lookup fails, whatever the unresolved offsets
      with that name and whatever later namespaces with the same dump name hold. */
  lemma ChainNeedsResolvedOffset(db: seq<TypeRecord>, all: seq<NamespaceDef>, s: Slots, reference: string, i: nat)
    requires Shaped(all, s)
    requires |Split(reference)| >= 2
    requires i < |all| && all[i].dumpName == Split(reference)[0]
    requires forall k :: 0 <= k < i ==> all[k].dumpName != Split(reference)[0]
    requires forall j :: 0 <= j < |all[i].offsets| && all[i].offsets[j].offsetName == Split(reference)[1]
               ==> s.foundField[i][j].None?
    ensures ChainLookup(db, all, s, reference) == Err(ResolvedOffsetNotFound)
  {
    var parts := Split(reference);
    FirstIndexAt(all, HasDumpName(parts[0]), i);
    var offs := OffsetsWithSlots(all, s, i);
    assert forall j :: 0 <= j < |offs| ==> !IsResolvedNamed(parts[1])(offs[j]);
  }

  /** The chain lookup stated by positions: the first namespace with the referenced
      dump name, its first resolved offset with the referenced name, the first type
      whose full name is that field's type, and, when that type is a field-less
      interface, the first class implementing it. Each missing step is its own
      failure. */
  lemma ChainLookupByPositions(db: seq<TypeRecord>, all: seq<NamespaceDef>, s: Slots, reference: string,
                               i: nat, j: nat, k: nat)
    requires Shaped(all, s)
    requires |Split(reference)| >= 2
    requires i < |all| && all[i].dumpName == Split(reference)[0]
    requires forall m :: 0 <= m < i ==> all[m].dumpName != Split(reference)[0]
    requires j < |all[i].offsets| && s.foundField[i][j].Some? && all[i].offsets[j].offsetName == Split(reference)[1]
    requires forall m :: 0 <= m < j ==> !(s.foundField[i][m].Some? && all[i].offsets[m].offsetName == Split(reference)[1])
    requires k < |db| && db[k].fullName == s.foundField[i][j].value.fieldType
    requires forall m :: 0 <= m < k ==> db[m].fullName != s.foundField[i][j].value.fieldType
    ensures !IsEmptyInterface(db[k]) ==> ChainLookup(db, all, s, reference) == Ok(db[k])
    ensures IsEmptyInterface(db[k]) ==>
      (ChainLookup(db, all, s, reference) == Err(ImplementorNotFound) <==>
       forall m :: 0 <= m < |db| ==> !(db[m].classType == "Class" && db[k].name in db[m].interfaces))
    ensures IsEmptyInterface(db[k]) ==>
      forall c :: 0 <= c < |db| && db[c].classType == "Class" && db[k].name in db[c].interfaces &&
        (forall m :: 0 <= m < c ==> !(db[m].classType == "Class" && db[k].name in db[m].interfaces))
        ==> ChainLookup(db, all, s, reference) == Ok(db[c])
  {
    var parts := Split(reference);
    FirstIndexAt(all, HasDumpName(parts[0]), i);
    var offs := OffsetsWithSlots(all, s, i);
    FirstIndexAt(offs, IsResolvedNamed(parts[1]), j);
    var field := s.foundField[i][j].value;
    FirstIndexAt(db, HasFullName(field.fieldType), k);
    assert ChainLookup(db, all, s, reference) ==
      if IsEmptyInterface(db[k]) then
        match FirstWhere(db, ImplementsInterface(db[k].name))
        case None => Err(ImplementorNotFound)
        case Some(c) => Ok(c)
      else Ok(db[k]);
    if IsEmptyInterface(db[k]) {
      FirstIndexLeast(db, ImplementsInterface(db[k].name));
      forall c | 0 <= c < |db| && db[c].classType == "Class" && db[k].name in db[c].interfaces &&
        (forall m :: 0 <= m < c ==> !(db[m].classType == "Class" && db[k].name in db[m].interfaces))
        ensures ChainLookup(db, all, s, reference) == Ok(db[c])
      {
        FirstIndexAt(db, ImplementsInterface(db[k].name), c);
      }
    }
  }

  /** `.First()` on the types whose full name is the resolved field's type: when no
      type has that name, the chain lookup fails with exactly that failure. */
  lemma ChainLookupFieldTypeMissing(db: seq<TypeRecord>, all: seq<NamespaceDef>, s: Slots, reference: string,
                                    i: nat, j: nat)
    requires Shaped(all, s)
    requires |Split(reference)| >= 2
    requires i < |all| && all[i].dumpName == Split(reference)[0]
    requires forall m :: 0 <= m < i ==> all[m].dumpName != Split(reference)[0]
    requires j < |all[i].offsets| && s.foundField[i][j].Some? && all[i].offsets[j].offsetName == Split(reference)[1]
    requires forall m :: 0 <= m < j ==> !(s.foundField[i][m].Some? && all[i].offsets[m].offsetName == Split(reference)[1])
    requires forall m :: 0 <= m < |db| ==> db[m].fullName != s.foundField[i][j].value.fieldType
    ensures ChainLookup(db, all, s, reference) == Err(FieldTypeNotFound)
  {
    var parts := Split(reference);
    FirstIndexAt(all, HasDumpName(parts[0]), i);
    var offs := OffsetsWithSlots(all, s, i);
    FirstIndexAt(offs, IsResolvedNamed(parts[1]), j);
    FirstIndexLeast(db, HasFullName(s.foundField[i][j].value.fieldType));
  }

  /** Each way the chain lookup can fail before reaching a field, stated outright. */
  lemma ChainLookupFailures(db: seq<TypeRecord>, all: seq<NamespaceDef>, s: Slots, reference: string)
    requires Shaped(all, s)
    ensures |Split(reference)| < 2 <==> ChainLookup(db, all, s, reference) == Err(MissingSeparator)
    ensures |Split(reference)| >= 2 ==>
      ((forall m :: 0 <= m < |all| ==> all[m].dumpName != Split(reference)[0])
       <==> ChainLookup(db, all, s, reference) == Err(NamespaceNotFound))
  {
    var parts := Split(reference);
    if |parts| >= 2 {
      FirstIndexLeast(all, HasDumpName(parts[0]));
    }
  }

  // ---------------------------------------------------------------------------
  // Field of an offset (Program.cs 184-209)
  // ---------------------------------------------------------------------------

  /** The reserved prefixes of compiler- or obfuscator-generated names. */
  const UnknownTypeMarker: string := "-.GClass"
  const UnknownFieldNameMarker: string := "gClass"

  function HasTypePrefix(prefix: string): FieldRecord -> bool
  {
    (f: FieldRecord) => prefix <= f.fieldType
  }

  function HasFieldType(name: string): FieldRecord -> bool
  {
    (f: FieldRecord) => f.fieldType == name
  }

  function HasNamePrefix(prefix: string): FieldRecord -> bool
  {
    (f: FieldRecord) => prefix <= f.name
  }

  function HasFieldName(name: string): FieldRecord -> bool
  {
    (f: FieldRecord) => f.name == name
  }

  /** The type axis: the marker prefix when the type is unknown, otherwise the
      explicit type name when there is one. */
  predicate TypeAccepts(off: OffsetDef, f: FieldRecord)
  {
    if off.isUnknownType then UnknownTypeMarker <= f.fieldType
    else off.typeName.None? || f.fieldType == off.typeName.value
  }

  /** The name axis, built the same way. */
  predicate NameAccepts(off: OffsetDef, f: FieldRecord)
  {
    if off.isUnknownFieldName then UnknownFieldNameMarker <= f.name
    else off.fieldName.None? || f.name == off.fieldName.value
  }

  function Accepts(off: OffsetDef): FieldRecord -> bool
  {
    (f: FieldRecord) => TypeAccepts(off, f) && NameAccepts(off, f)
  }

  /** The fields left after the type filter and then the name filter. */
  function Survivors(fields: seq<FieldRecord>, off: OffsetDef): seq<FieldRecord>
  {
    var byType :=
      if off.isUnknownType then Filter(fields, HasTypePrefix(UnknownTypeMarker))
      else if off.typeName.Some? then Filter(fields, HasFieldType(off.typeName.value))
      else fields;
    if off.isUnknownFieldName then Filter(byType, HasNamePrefix(UnknownFieldNameMarker))
    else if off.fieldName.Some? then Filter(byType, HasFieldName(off.fieldName.value))
    else byType
  }

  /** `FindFieldFromOffsetDefinition`: `t` is the possibly null type it is handed;
      `Ok(None)` is a null returned by the filter delegate. */
  function FindField(t: Option<TypeRecord>, off: OffsetDef): Result<Option<FieldRecord>>
  {
    if t.None? then Err(TypeIsNull)
    else
      var fields := Survivors(t.value.fields, off);
      if off.fieldFilter.Some? then Ok(off.fieldFilter.value(fields))
      else if |fields| == 0 then Err(NoCandidateField)
      else Ok(Some(fields[0]))
  }

  /** The type axis alone, as one filter. */
  lemma TypeStage(fields: seq<FieldRecord>, off: OffsetDef)
    ensures
      (if off.isUnknownType then Filter(fields, HasTypePrefix(UnknownTypeMarker))
       else if off.typeName.Some? then Filter(fields, HasFieldType(off.typeName.value))
       else fields)
      == Filter(fields, (f: FieldRecord) => TypeAccepts(off, f))
  {
    var p := (f: FieldRecord) => TypeAccepts(off, f);
    if off.isUnknownType {
      FilterCongruent(fields, HasTypePrefix(UnknownTypeMarker), p);
    } else if off.typeName.Some? {
      FilterCongruent(fields, HasFieldType(off.typeName.value), p);
    } else {
      FilterKeepsAll(fields, p);
    }
  }

  /** The survivors are exactly the fields both axes accept, in `fields` order. */
  lemma SurvivorsAreAccepted(fields: seq<FieldRecord>, off: OffsetDef)
    ensures Survivors(fields, off) == Filter(fields, Accepts(off))
    ensures forall k :: 0 <= k < |Survivors(fields, off)| ==>
      TypeAccepts(off, Survivors(fields, off)[k]) && NameAccepts(off, Survivors(fields, off)[k])
  {
    var tp := (f: FieldRecord) => TypeAccepts(off, f);
    var np := (f: FieldRecord) => NameAccepts(off, f);
    TypeStage(fields, off);
    var byType := Filter(fields, tp);
    if off.isUnknownFieldName {
      FilterCongruent(byType, HasNamePrefix(UnknownFieldNameMarker), np);
    } else if off.fieldName.Some? {
      FilterCongruent(byType, HasFieldName(off.fieldName.value), np);
    } else {
      FilterKeepsAll(byType, np);
    }
    FilterFilter(fields, tp, np, Accepts(off));
    FilterSatisfies(fields, Accepts(off));
  }

  /** The unknown-type flag shuts out the explicit type name, and the
      unknown-name flag the explicit field name: only marker-prefixed values
      survive and the explicit filter on that axis changes nothing. */
  lemma MarkersOverrideExplicitFilters(fields: seq<FieldRecord>, off: OffsetDef)
    ensures off.isUnknownType ==>
      (forall k :: 0 <= k < |Survivors(fields, off)| ==> UnknownTypeMarker <= Survivors(fields, off)[k].fieldType) &&
      (forall name :: Survivors(fields, off.(typeName := name)) == Survivors(fields, off))
    ensures off.isUnknownFieldName ==>
      (forall k :: 0 <= k < |Survivors(fields, off)| ==> UnknownFieldNameMarker <= Survivors(fields, off)[k].name) &&
      (forall name :: Survivors(fields, off.(fieldName := name)) == Survivors(fields, off))
  {
    SurvivorsAreAccepted(fields, off);
  }

  /** The field chosen: with a delegate, its answer on the survivors, unchanged;
      without one, the first field of the type that both axes accept, and a
      failure (not a null) when there is none. A null type fails. */
  lemma FindFieldChoice(t: Option<TypeRecord>, off: OffsetDef)
    ensures t.None? ==> FindField(t, off) == Err(TypeIsNull)
    ensures t.Some? && off.fieldFilter.Some? ==>
      FindField(t, off) == Ok(off.fieldFilter.value(Filter(t.value.fields, Accepts(off))))
    ensures t.Some? && off.fieldFilter.None? ==>
      FindField(t, off) == (match FirstWhere(t.value.fields, Accepts(off))
                            case None => Err(NoCandidateField)
                            case Some(f) => Ok(Some(f)))
  {
    if t.Some? {
      SurvivorsAreAccepted(t.value.fields, off);
      FirstOfFilter(t.value.fields, Accepts(off));
    }
  }
}
