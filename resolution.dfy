/** What one resolution pass does to the slots, as functions: each offset of each
    node in pre-order, the offsets of a node in list order, the first exception
    ending the pass. The imperative pass in module Program is proved equal to this. */
module Resolution {
  import opened Seqs
  import opened Records
  import opened Flattening
  import opened Lookup

  /** The slots when the pass ends, and the exception that ended it early, if any. */
  datatype Pass = Pass(slots: Slots, failure: Option<Failure>)

  /** A freshly built tree: no type and no field found yet. */
  function EmptySlots(all: seq<NamespaceDef>): (s: Slots)
    ensures Shaped(all, s)
    ensures forall i :: 0 <= i < |all| ==> s.foundType[i].None?
    ensures forall i, j :: 0 <= i < |all| && 0 <= j < |all[i].offsets| ==> s.foundField[i][j].None?
  {
    Slots(seq(|all|, _ => None),
          seq(|all|, i requires 0 <= i < |all| => seq(|all[i].offsets|, _ => None)))
  }

  /** Assigning `FoundType` of node `g` and `FoundField` of its offset `j`. */
  function Record(s: Slots, g: nat, j: nat, t: Option<TypeRecord>, f: FieldRecord): Slots
    requires g < |s.foundType| && g < |s.foundField| && j < |s.foundField[g]|
  {
    Slots(s.foundType[g := t], s.foundField[g := s.foundField[g][j := Some(f)]])
  }

  /** `HandleOffsetDefinition` for offset `j` of node `g`: the type lookup is redone
      for this offset, and only a non-null field is written. */
  function HandleOffset(db: seq<TypeRecord>, all: seq<NamespaceDef>, s: Slots, g: nat, j: nat): (p: Pass)
    requires Shaped(all, s) && g < |all| && j < |all[g].offsets|
    ensures Shaped(all, p.slots)
  {
    match FindType(db, all, s, all[g])
    case Err(e) => Pass(s, Some(e))
    case Ok(t) =>
      match FindField(t, all[g].offsets[j])
      case Err(e) => Pass(s, Some(e))
      case Ok(None) => Pass(s, None)
      case Ok(Some(f)) => Pass(Record(s, g, j, t, f), None)
  }

  /** The rest of a pass over nodes `g` to `hi - 1`, starting at offset `j` of node
      `g`; it stops at the first exception. */
  function RunFrom(db: seq<TypeRecord>, all: seq<NamespaceDef>, s: Slots, g: nat, j: nat, hi: nat): (p: Pass)
    requires Shaped(all, s) && g <= hi <= |all|
    requires g < hi ==> j <= |all[g].offsets|
    ensures Shaped(all, p.slots)
    decreases hi - g, if g < hi then |all[g].offsets| - j else 0, 1
  {
    if g == hi then Pass(s, None)
    else if j == |all[g].offsets| then RunFrom(db, all, s, g + 1, 0, hi)
    else RunOffset(db, all, s, g, j, hi)
  }

  /** The rest of the pass when it reaches offset `j` of node `g`: that offset is
      handled, and the pass goes on unless it raised. */
  function RunOffset(db: seq<TypeRecord>, all: seq<NamespaceDef>, s: Slots, g: nat, j: nat, hi: nat): (p: Pass)
    requires Shaped(all, s) && g < hi <= |all| && j < |all[g].offsets|
    ensures Shaped(all, p.slots)
    decreases hi - g, |all[g].offsets| - j, 0
  {
    var p := HandleOffset(db, all, s, g, j);
    if p.failure.Some? then p else RunFrom(db, all, p.slots, g, j + 1, hi)
  }

  /** One offset writes nothing but its own field slot and its namespace's type
      slot. An exception from the type lookup or from the field lookup becomes the
      step's failure and leaves every slot as it was; a null field from the
      delegate leaves them as they were too; a found field is written, together
      with the type it was found in. */
  lemma HandleOffsetWrites(db: seq<TypeRecord>, all: seq<NamespaceDef>, s: Slots, g: nat, j: nat)
    requires Shaped(all, s) && g < |all| && j < |all[g].offsets|
    ensures var p := HandleOffset(db, all, s, g, j);
      (forall i :: 0 <= i < |all| && i != g ==>
         p.slots.foundType[i] == s.foundType[i] && p.slots.foundField[i] == s.foundField[i]) &&
      (forall m :: 0 <= m < |all[g].offsets| && m != j ==> p.slots.foundField[g][m] == s.foundField[g][m])
    ensures var p := HandleOffset(db, all, s, g, j);
      var t := FindType(db, all, s, all[g]);
      t.Err? ==> p == Pass(s, Some(t.failure))
    ensures var p := HandleOffset(db, all, s, g, j);
      var t := FindType(db, all, s, all[g]);
      t.Ok? && FindField(t.value, all[g].offsets[j]).Err? ==>
        p == Pass(s, Some(FindField(t.value, all[g].offsets[j]).failure))
    ensures var p := HandleOffset(db, all, s, g, j);
      var t := FindType(db, all, s, all[g]);
      t.Ok? && FindField(t.value, all[g].offsets[j]) == Ok(None) ==> p == Pass(s, None)
    ensures var p := HandleOffset(db, all, s, g, j);
      var t := FindType(db, all, s, all[g]);
      var f := if t.Ok? then FindField(t.value, all[g].offsets[j]) else Err(TypeIsNull);
      f.Ok? && f.value.Some? ==>
        p.failure.None? && t.value.Some? &&
        p.slots.foundType[g] == t.value && p.slots.foundField[g][j] == f.value
  {
    var p := HandleOffset(db, all, s, g, j);
    match FindType(db, all, s, all[g])
    case Err(e) =>
      assert p == Pass(s, Some(e));
    case Ok(t) =>
      match FindField(t, all[g].offsets[j])
      case Err(e) =>
        assert p == Pass(s, Some(e));
      case Ok(None) =>
        assert p == Pass(s, None);
      case Ok(Some(f)) =>
        assert t.Some?;
        assert p == Pass(Record(s, g, j, t, f), None);
  }

  /** One offset writes nothing but its own field slot and its namespace's type slot. */
  lemma HandleOffsetFrame(db: seq<TypeRecord>, all: seq<NamespaceDef>, s: Slots, g: nat, j: nat)
    requires Shaped(all, s) && g < |all| && j < |all[g].offsets|
    ensures var p := HandleOffset(db, all, s, g, j);
      (forall i :: 0 <= i < |all| && i != g ==>
         p.slots.foundType[i] == s.foundType[i] && p.slots.foundField[i] == s.foundField[i]) &&
      (forall m :: 0 <= m < |all[g].offsets| && m != j ==> p.slots.foundField[g][m] == s.foundField[g][m])
  {
    var p := HandleOffset(db, all, s, g, j);
    if p.slots != s {
      var t := FindType(db, all, s, all[g]).value;
      var f := FindField(t, all[g].offsets[j]).value.value;
      assert p.slots == Record(s, g, j, t, f);
    }
  }

  /** One offset never clears a slot. */
  lemma HandleOffsetGrows(db: seq<TypeRecord>, all: seq<NamespaceDef>, s: Slots, g: nat, j: nat)
    requires Shaped(all, s) && g < |all| && j < |all[g].offsets|
    ensures var p := HandleOffset(db, all, s, g, j);
      (forall i :: 0 <= i < |all| && s.foundType[i].Some? ==> p.slots.foundType[i].Some?) &&
      (forall i, m :: 0 <= i < |all| && 0 <= m < |all[i].offsets| && s.foundField[i][m].Some?
         ==> p.slots.foundField[i][m].Some?)
  {
    var p := HandleOffset(db, all, s, g, j);
    if p.slots != s {
      var t := FindType(db, all, s, all[g]).value;
      var f := FindField(t, all[g].offsets[j]).value.value;
      assert t.Some?;
      assert p.slots == Record(s, g, j, t, f);
    }
  }

  /** One offset of the pass: it either raises, which ends the pass with its
      result, or the pass goes on from the next offset with the slots it left. */
  lemma OffsetStep(db: seq<TypeRecord>, all: seq<NamespaceDef>, s: Slots, g: nat, j: nat, hi: nat,
                   after: Slots, failure: Option<Failure>)
    requires Shaped(all, s) && g < hi <= |all| && j < |all[g].offsets|
    requires Pass(after, failure) == HandleOffset(db, all, s, g, j)
    ensures failure.Some? ==> Pass(after, failure) == RunFrom(db, all, s, g, j, hi)
    ensures failure.None? ==> Shaped(all, after)
    ensures failure.None? ==> RunFrom(db, all, after, g, j + 1, hi) == RunFrom(db, all, s, g, j, hi)
  {
  }

  /** After the last offset of a node the pass moves on to the next node. */
  lemma NodeEnd(db: seq<TypeRecord>, all: seq<NamespaceDef>, s: Slots, g: nat, hi: nat)
    requires Shaped(all, s) && g < hi <= |all|
    ensures RunFrom(db, all, s, g, |all[g].offsets|, hi) == RunFrom(db, all, s, g + 1, 0, hi)
  {
  }

  /** The pass over a subtree occupying nodes `pos` to `pos + size - 1`, as a step
      of a pass over a longer range: an exception ends the longer pass too. */
  lemma SubtreeStep(db: seq<TypeRecord>, all: seq<NamespaceDef>, s: Slots, pos: nat, size: nat, hi: nat,
                    after: Slots, failure: Option<Failure>)
    requires Shaped(all, s) && pos + size <= hi <= |all|
    requires Pass(after, failure) == RunFrom(db, all, s, pos, 0, pos + size)
    ensures failure.Some? ==> Pass(after, failure) == RunFrom(db, all, s, pos, 0, hi)
    ensures failure.None? ==> Shaped(all, after)
    ensures failure.None? ==> RunFrom(db, all, after, pos + size, 0, hi) == RunFrom(db, all, s, pos, 0, hi)
  {
    RunFromSplit(db, all, s, pos, 0, pos + size, hi);
  }

  /** A pass over a range is the pass over a first part followed, unless that
      raised, by the pass over the rest. */
  lemma {:induction false} RunFromSplit(db: seq<TypeRecord>, all: seq<NamespaceDef>, s: Slots,
                                        a: nat, j: nat, m: nat, hi: nat)
    requires Shaped(all, s) && a <= m <= hi <= |all|
    requires a < m ==> j <= |all[a].offsets|
    requires a == m ==> j == 0
    ensures var p := RunFrom(db, all, s, a, j, m);
      RunFrom(db, all, s, a, j, hi) ==
        if p.failure.Some? then p else RunFrom(db, all, p.slots, m, 0, hi)
    decreases m - a, if a < m then |all[a].offsets| - j else 0
  {
    if a < m {
      if j == |all[a].offsets| {
        RunFromSplit(db, all, s, a + 1, 0, m, hi);
      } else {
        var p := HandleOffset(db, all, s, a, j);
        if p.failure.None? {
          assert RunFrom(db, all, s, a, j, hi) == RunFrom(db, all, p.slots, a, j + 1, hi);
          assert RunFrom(db, all, s, a, j, m) == RunFrom(db, all, p.slots, a, j + 1, m);
          RunFromSplit(db, all, p.slots, a, j + 1, m, hi);
        }
      }
    }
  }

  /** A pass over nodes `g` to `hi - 1` leaves the slots of every other node, and of
      the offsets of `g` before `j`, as they were. */
  lemma {:induction false} RunFromFrame(db: seq<TypeRecord>, all: seq<NamespaceDef>, s: Slots,
                                        g: nat, j: nat, hi: nat)
    requires Shaped(all, s) && g <= hi <= |all|
    requires g < hi ==> j <= |all[g].offsets|
    ensures var p := RunFrom(db, all, s, g, j, hi);
      forall i :: 0 <= i < |all| && (i < g || hi <= i) ==>
        p.slots.foundType[i] == s.foundType[i] && p.slots.foundField[i] == s.foundField[i]
    ensures var p := RunFrom(db, all, s, g, j, hi);
      g < hi ==> forall m :: 0 <= m < j ==> p.slots.foundField[g][m] == s.foundField[g][m]
    decreases hi - g, if g < hi then |all[g].offsets| - j else 0
  {
    if g < hi {
      if j == |all[g].offsets| {
        assert RunFrom(db, all, s, g, j, hi) == RunFrom(db, all, s, g + 1, 0, hi);
        RunFromFrame(db, all, s, g + 1, 0, hi);
      } else {
        HandleOffsetFrame(db, all, s, g, j);
        var p := HandleOffset(db, all, s, g, j);
        if p.failure.None? {
          assert RunFrom(db, all, s, g, j, hi) == RunFrom(db, all, p.slots, g, j + 1, hi);
          RunFromFrame(db, all, p.slots, g, j + 1, hi);
        } else {
          assert RunFrom(db, all, s, g, j, hi) == p;
        }
      }
    }
  }

  /** A pass never clears a slot: what was resolved stays resolved. */
  lemma {:induction false} RunFromMonotone(db: seq<TypeRecord>, all: seq<NamespaceDef>, s: Slots,
                                           g: nat, j: nat, hi: nat)
    requires Shaped(all, s) && g <= hi <= |all|
    requires g < hi ==> j <= |all[g].offsets|
    ensures var p := RunFrom(db, all, s, g, j, hi);
      (forall i :: 0 <= i < |all| && s.foundType[i].Some? ==> p.slots.foundType[i].Some?) &&
      (forall i, m :: 0 <= i < |all| && 0 <= m < |all[i].offsets| && s.foundField[i][m].Some?
         ==> p.slots.foundField[i][m].Some?)
    decreases hi - g, if g < hi then |all[g].offsets| - j else 0
  {
    if g < hi {
      if j == |all[g].offsets| {
        assert RunFrom(db, all, s, g, j, hi) == RunFrom(db, all, s, g + 1, 0, hi);
        RunFromMonotone(db, all, s, g + 1, 0, hi);
      } else {
        HandleOffsetGrows(db, all, s, g, j);
        var p := HandleOffset(db, all, s, g, j);
        if p.failure.None? {
          assert RunFrom(db, all, s, g, j, hi) == RunFrom(db, all, p.slots, g, j + 1, hi);
          RunFromMonotone(db, all, p.slots, g, j + 1, hi);
        } else {
          assert RunFrom(db, all, s, g, j, hi) == p;
        }
      }
    }
  }

  /** Chaining only looks backwards in the pre-order: on a freshly built tree, when
      the pass reaches node `g` and the first namespace carrying the dump name that
      `g`'s reference names is `g` itself or comes after it, the first offset of
      `g` raises, because no offset of that namespace has been resolved yet. */
  lemma ForwardReferenceFails(db: seq<TypeRecord>, all: seq<NamespaceDef>, g: nat, i: nat)
    requires g < |all| && |all[g].offsets| > 0
    requires all[g].previousFoundField.Some?
    requires |Split(all[g].previousFoundField.value)| >= 2
    requires g <= i < |all| && all[i].dumpName == Split(all[g].previousFoundField.value)[0]
    requires forall k :: 0 <= k < i ==> all[k].dumpName != Split(all[g].previousFoundField.value)[0]
    requires RunFrom(db, all, EmptySlots(all), 0, 0, g).failure.None?
    ensures var before := RunFrom(db, all, EmptySlots(all), 0, 0, g).slots;
      HandleOffset(db, all, before, g, 0) == Pass(before, Some(ResolvedOffsetNotFound))
  {
    var empty := EmptySlots(all);
    var before := RunFrom(db, all, empty, 0, 0, g).slots;
    RunFromFrame(db, all, empty, 0, 0, g);
    assert before.foundField[i] == empty.foundField[i];
    ChainNeedsResolvedOffset(db, all, before, all[g].previousFoundField.value, i);
  }
}
