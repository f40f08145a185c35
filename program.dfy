/** The generator's state and its steps (`Program`): the type records, the roots of
    the definition tree, the resolution slots the pass writes in place, and the
    output file's frame. */
module Program {
  import opened Seqs
  import opened Records
  import opened Flattening
  import opened Lookup
  import opened Resolution
  import opened Template

  /** The arguments of one `CppTemplate.HandleNamespace` call: the root (by its
      position in the pre-order listing), the depth and the last-root flag. */
  datatype HandleNamespaceCall = HandleNamespaceCall(root: nat, depth: int, isLast: bool)

  /** The lines `CppTemplate.HandleNamespace` appends for a call, given the slots it
      reads; that method is not part of this model. */
  type NamespaceRenderer = (Slots, HandleNamespaceCall) -> seq<string>

  /** The lines of a sequence of `HandleNamespace` calls, in call order. */
  function RenderCalls(render: NamespaceRenderer, s: Slots, calls: seq<HandleNamespaceCall>): seq<string>
    decreases |calls|
  {
    if |calls| == 0 then []
    else RenderCalls(render, s, calls[..|calls| - 1]) + render(s, calls[|calls| - 1])
  }

  /** One more call appends its lines after those of the earlier calls. */
  lemma RenderCallsSnoc(render: NamespaceRenderer, s: Slots, calls: seq<HandleNamespaceCall>,
                        call: HandleNamespaceCall)
    ensures RenderCalls(render, s, calls + [call]) == RenderCalls(render, s, calls) + render(s, call)
  {
    assert (calls + [call])[..|calls|] == calls;
  }

  /** The lines of `offsets.h`: the preprocessor lines, the header between blank
      lines, the `offsets` namespace around what the namespace calls wrote. */
  function OutputLines(gameVersion: Option<string>, timestamp: string, body: seq<string>): seq<string>
  {
    ["#pragma once", "#include \"stdafx.h\"", ""] + HeaderLines(gameVersion, timestamp) +
    ["", "namespace offsets", "{"] + body + ["}"]
  }

  /** The file's lines as the generator writes them: everything before the first
      namespace, the namespaces' lines, the closing brace. */
  lemma OutputLinesInOrder(gameVersion: Option<string>, timestamp: string, body: seq<string>)
    ensures OutputLines(gameVersion, timestamp, body) ==
      (["#pragma once", "#include \"stdafx.h\"", ""] + HeaderLines(gameVersion, timestamp) +
       ["", "namespace offsets", "{"]) + body + ["}"]
  {
  }

  /** No line holds a line feed of its own. */
  predicate SingleLines(lines: seq<string>)
  {
    forall k :: 0 <= k < |lines| ==> '\n' !in lines[k]
  }

  lemma SingleLinesAppend(a: seq<string>, b: seq<string>)
    requires SingleLines(a) && SingleLines(b)
    ensures SingleLines(a + b)
  {
    forall k | 0 <= k < |a + b| ensures '\n' !in (a + b)[k] {
      if k >= |a| {
        assert (a + b)[k] == b[k - |a|];
      }
    }
  }

  /** Indenting a line adds no line feed. */
  lemma IndentedSingleLine(n: nat, x: string)
    requires '\n' !in x
    ensures '\n' !in Tabs(n) + x
  {
    assert '\n' !in Tabs(n);
  }

  /** The header holds no line feed unless the version or the time does. */
  lemma HeaderSingleLines(gameVersion: Option<string>, timestamp: string)
    requires gameVersion.Some? ==> '\n' !in gameVersion.value
    requires '\n' !in timestamp
    ensures SingleLines(HeaderLines(gameVersion, timestamp))
  {
    IndentedSingleLine(0, "/*");
    IndentedSingleLine(1, "Generated using Beavis' Gen");
    IndentedSingleLine(1, "At " + timestamp);
    VersionLineCases(gameVersion);
    IndentedSingleLine(1, VersionLine(gameVersion));
    IndentedSingleLine(0, "*/");
  }

  /** The file's frame, read back from its text: the first eleven lines and the
      last one are fixed, and the namespace calls' lines sit between them. */
  lemma OutputFrame(gameVersion: Option<string>, timestamp: string, body: seq<string>)
    requires gameVersion.Some? ==> '\n' !in gameVersion.value
    requires '\n' !in timestamp
    requires SingleLines(body)
    ensures var ls := OutputLines(gameVersion, timestamp, body);
      ParseLines(Text(ls)) == Some(ls) &&
      |ls| == 12 + |body| &&
      ls[..3] == ["#pragma once", "#include \"stdafx.h\"", ""] &&
      ls[3..8] == HeaderLines(gameVersion, timestamp) &&
      ls[8..11] == ["", "namespace offsets", "{"] &&
      ls[11..11 + |body|] == body &&
      ls[|ls| - 1] == "}"
  {
    var ls := OutputLines(gameVersion, timestamp, body);
    OutputSingleLines(gameVersion, timestamp, body);
    ParseText(ls);
    Parts(["#pragma once", "#include \"stdafx.h\"", ""], HeaderLines(gameVersion, timestamp),
          ["", "namespace offsets", "{"], body, ["}"]);
  }

  /** Each of five consecutive parts can be cut back out of their concatenation. */
  lemma Parts(a: seq<string>, b: seq<string>, c: seq<string>, d: seq<string>, e: seq<string>)
    ensures var ls := a + b + c + d + e;
      ls[..|a|] == a &&
      ls[|a|..|a| + |b|] == b &&
      ls[|a| + |b|..|a| + |b| + |c|] == c &&
      ls[|a| + |b| + |c|..|a| + |b| + |c| + |d|] == d &&
      ls[|a| + |b| + |c| + |d|..] == e
  {
  }

  /** No line of the file holds a line feed of its own. */
  lemma OutputSingleLines(gameVersion: Option<string>, timestamp: string, body: seq<string>)
    requires gameVersion.Some? ==> '\n' !in gameVersion.value
    requires '\n' !in timestamp
    requires SingleLines(body)
    ensures SingleLines(OutputLines(gameVersion, timestamp, body))
  {
    var pre := ["#pragma once", "#include \"stdafx.h\"", ""];
    var h := HeaderLines(gameVersion, timestamp);
    var open := ["", "namespace offsets", "{"];
    HeaderSingleLines(gameVersion, timestamp);
    SingleLinesAppend(pre, h);
    SingleLinesAppend(pre + h, open);
    SingleLinesAppend(pre + h + open, body);
    SingleLinesAppend(pre + h + open + body, ["}"]);
  }

  /** The `HandleNamespace` call `GenerateOutputFile` makes for root `k`: the root's
      position in the listing, depth 1, and the last-root flag. */
  function RootCall(roots: seq<NamespaceDef>, k: nat): HandleNamespaceCall
    requires k < |roots|
  {
    HandleNamespaceCall(|FlattenAll(roots[..k])|, 1, k == |roots| - 1)
  }

  /** The calls for the first `n` roots, in root order. */
  function RootCalls(roots: seq<NamespaceDef>, n: nat): (r: seq<HandleNamespaceCall>)
    requires n <= |roots|
    ensures |r| == n
  {
    if n == 0 then [] else RootCalls(roots, n - 1) + [RootCall(roots, n - 1)]
  }

  /** Call `k` of the list is root `k`'s call. */
  lemma {:induction false} RootCallsAt(roots: seq<NamespaceDef>, n: nat)
    requires n <= |roots|
    ensures forall k :: 0 <= k < n ==> RootCalls(roots, n)[k] == RootCall(roots, k)
  {
    if n > 0 {
      RootCallsAt(roots, n - 1);
    }
  }

  /** The call for root `k`, from the position after the roots before it, and the
      position after root `k`. */
  lemma RootCallNext(roots: seq<NamespaceDef>, k: nat, pos: nat)
    requires k < |roots| && pos == |FlattenAll(roots[..k])|
    ensures RootCalls(roots, k + 1) ==
      RootCalls(roots, k) + [HandleNamespaceCall(pos, 1, k == |roots| - 1)]
    ensures pos + |Flatten(roots[k])| == |FlattenAll(roots[..k + 1])|
  {
    FlattenAllSnoc(roots, k);
  }

  /** Each root's call names that root, and only the last root's call is flagged last. */
  lemma RootCallsTargetRoots(roots: seq<NamespaceDef>)
    ensures forall k :: 0 <= k < |roots| ==>
      RootCall(roots, k).root < |FlattenAll(roots)| &&
      FlattenAll(roots)[RootCall(roots, k).root] == roots[k] &&
      (RootCall(roots, k).isLast <==> k == |roots| - 1)
  {
    forall k | 0 <= k < |roots|
      ensures RootCall(roots, k).root < |FlattenAll(roots)| &&
              FlattenAll(roots)[RootCall(roots, k).root] == roots[k]
    {
      RootPlaced(roots, FlattenAll(roots), k, |FlattenAll(roots[..k])|);
    }
  }

  class Generator {
    /** `Inspector.TypeDefinitions`. */
    const db: seq<TypeRecord>
    /** `Definitions`: the roots of the definition tree. */
    const definitions: seq<NamespaceDef>
    /** The pre-order listing of the whole tree; a node's position in it is the
        node's identity. */
    const all: seq<NamespaceDef>
    /** `FoundType` of every node. */
    var foundType: seq<Option<TypeRecord>>
    /** `FoundField` of every offset of every node. */
    var foundField: seq<seq<Option<FieldRecord>>>

    function State(): Slots
      reads this
    {
      Slots(foundType, foundField)
    }

    ghost predicate Valid()
      reads this
    {
      all == FlattenAll(definitions) && Shaped(all, State())
    }

    /** A generator over a freshly built tree: nothing resolved yet. */
    constructor (db: seq<TypeRecord>, definitions: seq<NamespaceDef>)
      ensures Valid() && this.db == db && this.definitions == definitions
      ensures State() == EmptySlots(all)
    {
      this.db := db;
      this.definitions := definitions;
      var listing := GetAllNamespaceDefinitions(definitions);
      this.all := listing;
      var empty := EmptySlots(listing);
      foundType := empty.foundType;
      foundField := empty.foundField;
    }

    /** `HandleOffsetDefinition` for offset `j` of node `g`; `failure` is the
        exception it raises, if any. */
    method HandleOffsetDefinition(g: nat, j: nat) returns (failure: Option<Failure>)
      requires Valid() && g < |all| && j < |all[g].offsets|
      modifies this
      ensures Valid()
      ensures Pass(State(), failure) == HandleOffset(db, all, old(State()), g, j)
    {
      var typ := FindType(db, all, State(), all[g]);
      if typ.Err? {
        return Some(typ.failure);
      }
      var field := FindField(typ.value, all[g].offsets[j]);
      if field.Err? {
        return Some(field.failure);
      }
      if field.value.None? {
        // Logged as not found; nothing is written.
        return None;
      }
      foundType := foundType[g := typ.value];
      foundField := foundField[g := foundField[g][j := field.value]];
      failure := None;
    }

    /** `IterateNamespaceDefinition` for node `g`: its offsets in list order, then
        its children in list order; it stops at the first exception. */
    method IterateNamespaceDefinition(g: nat) returns (failure: Option<Failure>)
      requires Valid() && Placed(all, g)
      modifies this
      ensures Valid()
      ensures Pass(State(), failure) == RunFrom(db, all, old(State()), g, 0, g + |Flatten(all[g])|)
      decreases |Flatten(all[g])|
    {
      var node := all[g];
      var hi := g + |Flatten(node)|;
      ghost var goal := RunFrom(db, all, State(), g, 0, hi);

      var j := 0;
      while j < |node.offsets|
        invariant Valid() && 0 <= j <= |node.offsets|
        invariant RunFrom(db, all, State(), g, j, hi) == goal
      {
        ghost var before := State();
        failure := HandleOffsetDefinition(g, j);
        OffsetStep(db, all, before, g, j, hi, State(), failure);
        if failure.Some? {
          return;
        }
        j := j + 1;
      }
      NodeEnd(db, all, State(), g, hi);

      var pos := g + 1;
      var k := 0;
      while k < |node.children|
        invariant Valid() && 0 <= k <= |node.children|
        invariant pos == g + 1 + |FlattenAll(node.children[..k])| && pos <= hi
        invariant RunFrom(db, all, State(), pos, 0, hi) == goal
      {
        ChildPlaced(all, g, k, pos);
        var size := |Flatten(all[pos])|;
        ghost var before := State();
        failure := IterateNamespaceDefinition(pos);
        SubtreeStep(db, all, before, pos, size, hi, State(), failure);
        if failure.Some? {
          return;
        }
        FlattenAllSnoc(node.children, k);
        assert size == |Flatten(node.children[k])|;
        pos := pos + size;
        k := k + 1;
      }
      assert node.children[..k] == node.children;
      failure := None;
    }

    /** `GenerateOffsets`: every root in `Definitions` order; it stops at the first
        exception, which is `failure`. */
    method GenerateOffsets() returns (failure: Option<Failure>)
      requires Valid()
      modifies this
      ensures Valid()
      ensures Pass(State(), failure) == RunFrom(db, all, old(State()), 0, 0, |all|)
    {
      ghost var goal := RunFrom(db, all, State(), 0, 0, |all|);
      var pos := 0;
      var k := 0;
      while k < |definitions|
        invariant Valid() && 0 <= k <= |definitions|
        invariant pos == |FlattenAll(definitions[..k])| && pos <= |all|
        invariant RunFrom(db, all, State(), pos, 0, |all|) == goal
      {
        RootPlaced(definitions, all, k, pos);
        var size := |Flatten(all[pos])|;
        ghost var before := State();
        failure := IterateNamespaceDefinition(pos);
        SubtreeStep(db, all, before, pos, size, |all|, State(), failure);
        if failure.Some? {
          return;
        }
        FlattenAllSnoc(definitions, k);
        assert size == |Flatten(definitions[k])|;
        pos := pos + size;
        k := k + 1;
      }
      assert definitions[..k] == definitions;
      failure := None;
    }

    /** `CppTemplate.HandleNamespace`, given by `render`: its lines go into the
        template in order. */
    method HandleNamespace(template: BaseTemplate, call: HandleNamespaceCall, render: NamespaceRenderer)
      requires template.Valid()
      modifies template
      ensures template.Valid()
      ensures template.lines == old(template.lines) + render(State(), call)
    {
      var ls := render(State(), call);
      var i := 0;
      while i < |ls|
        invariant template.Valid() && 0 <= i <= |ls|
        invariant template.lines == old(template.lines) + ls[..i]
      {
        template.AddInstruction(ls[i], 0);
        assert Tabs(0) + ls[i] == ls[i];
        assert ls[..i + 1] == ls[..i] + [ls[i]];
        i := i + 1;
      }
      assert ls[..i] == ls;
    }

    /** The lines `GenerateOutputFile` writes before the first namespace: the
        preprocessor lines, the header between blank lines, and the opening of
        the `offsets` namespace. */
    method WriteFileStart(template: BaseTemplate, gameVersion: Option<string>, timestamp: string)
      requires template.Valid() && template.lines == []
      modifies template
      ensures template.Valid()
      ensures template.lines == ["#pragma once", "#include \"stdafx.h\"", ""] +
        HeaderLines(gameVersion, timestamp) + ["", "namespace offsets", "{"]
    {
      Unindented("#pragma once");
      Unindented("#include \"stdafx.h\"");
      Unindented("namespace offsets");
      Unindented("{");
      template.AddInstruction("#pragma once", 0);
      template.AddInstruction("#include \"stdafx.h\"", 0);
      template.SkipLine();
      assert template.lines == ["#pragma once", "#include \"stdafx.h\"", ""];
      template.AddHeader(gameVersion, timestamp);
      template.SkipLine();
      template.AddInstruction("namespace offsets", 0);
      template.AddInstruction("{", 0);
    }

    /** The namespace part of `GenerateOutputFile`: one `HandleNamespace` call per
        root, in `Definitions` order. */
    method WriteNamespaces(template: BaseTemplate, render: NamespaceRenderer)
      returns (calls: seq<HandleNamespaceCall>)
      requires template.Valid()
      modifies template
      ensures template.Valid()
      ensures calls == RootCalls(definitions, |definitions|)
      ensures template.lines == old(template.lines) + RenderCalls(render, State(), calls)
    {
      calls := [];
      var pos := 0;
      var k := 0;
      while k < |definitions|
        invariant template.Valid() && 0 <= k <= |definitions|
        invariant pos == |FlattenAll(definitions[..k])|
        invariant calls == RootCalls(definitions, k)
        invariant template.lines == old(template.lines) + RenderCalls(render, State(), calls)
      {
        var call := HandleNamespaceCall(pos, 1, k == |definitions| - 1);
        HandleNamespace(template, call, render);
        RenderCallsSnoc(render, State(), calls, call);
        RootCallNext(definitions, k, pos);
        calls := calls + [call];
        pos := pos + |Flatten(definitions[k])|;
        k := k + 1;
      }
    }

    /** `GenerateOutputFile`, up to the text it would write to `offsets.h`: the
        frame around one `HandleNamespace` call per root, at depth 1, flagged last
        only for the last root. */
    method GenerateOutputFile(gameVersion: Option<string>, timestamp: string, render: NamespaceRenderer)
      returns (text: string, calls: seq<HandleNamespaceCall>)
      requires Valid()
      ensures |calls| == |definitions|
      ensures forall k :: 0 <= k < |calls| ==> calls[k] == RootCall(definitions, k)
      ensures text == Text(OutputLines(gameVersion, timestamp, RenderCalls(render, State(), calls)))
    {
      var template := new BaseTemplate();
      WriteFileStart(template, gameVersion, timestamp);
      calls := WriteNamespaces(template, render);
      RootCallsAt(definitions, |definitions|);
      Unindented("}");
      template.AddInstruction("}", 0);
      OutputLinesInOrder(gameVersion, timestamp, RenderCalls(render, State(), calls));
      text := template.Build();
    }
  }
}
